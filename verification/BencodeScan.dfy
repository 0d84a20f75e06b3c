/** What the bencode reader of backend/src/demagnetize.rs makes of any bytes, told by one pass over them
    that builds no values. */
module BencodeScan {
  import opened Bencode

  /** A number or a byte string passed over; `text`: it can be a key. */
  datatype Atom = Skip(next: nat, text: bool) | NoAtom | Overlong

  function AtomAt(data: seq<byte>, pos: nat): (a: Atom)
    requires pos < |data|
    ensures a.Skip? ==> pos < a.next <= |data|
  {
    if data[pos] == LOWER_I then
      var end := Find(data, pos + 1, LOWER_E);
      if end.None? || ParseI64(data[pos + 1..end.value]).None? then NoAtom else Skip(end.value + 1, false)
    else if IsDigit(data[pos]) then
      var colon := Find(data, pos, COLON);
      if colon.None? || ParseUsize(data[pos..colon.value]).None? then NoAtom
      else
        var end := colon.value + 1 + ParseUsize(data[pos..colon.value]).value;
        if end >= USIZE_LIMIT then Overlong
        else if end > |data| then NoAtom
        else Skip(end, IsUtf8(data[colon.value + 1..end]))
    else NoAtom
  }

  /** Where the pass is within a container: in a list, before a key or the end, before a value, or behind
      a key that is no string, which the reader notices once it has read it. */
  datatype Place = InList | AtKey | AtValue | BadKey

  /** All containers closed; so many left open; something that is no bencode; or, at `at`, a length
      too great. */
  datatype Verdict = Closed(next: nat) | LeftOpen(n: nat) | Stuck | TooLong(at: nat)

  /** The place of a container around another, once that one is read. */
  function Around(p: Place): Place {
    match p
    case AtKey => BadKey
    case AtValue => AtKey
    case _ => p
  }

  /** The pass from `pos` on; the innermost open container comes first. */
  function Scan(data: seq<byte>, pos: nat, open: seq<Place>): Verdict
    decreases |data| - pos
  {
    if open == [] then Closed(pos)
    else if open[0] == BadKey then Stuck
    else if pos >= |data| then
      if open[0] == AtValue || BadKey in open then Stuck else LeftOpen(|open|)
    else if data[pos] == LOWER_E then
      if open[0] == AtValue then Stuck else Scan(data, pos + 1, open[1..])
    else if data[pos] == LOWER_L then Scan(data, pos + 1, [InList, Around(open[0])] + open[1..])
    else if data[pos] == LOWER_D then Scan(data, pos + 1, [AtKey, Around(open[0])] + open[1..])
    else
      match AtomAt(data, pos)
      case Overlong => TooLong(pos)
      case NoAtom => Stuck
      case Skip(next, text) =>
        if open[0] == AtKey then if text then Scan(data, next, [AtValue] + open[1..]) else Stuck
        else Scan(data, next, [Around(open[0])] + open[1..])
  }

  /** The pass over a value. */
  function ScanValue(data: seq<byte>, pos: nat): Verdict {
    if pos >= |data| then Stuck
    else if data[pos] == LOWER_L then Scan(data, pos + 1, [InList])
    else if data[pos] == LOWER_D then Scan(data, pos + 1, [AtKey])
    else
      match AtomAt(data, pos)
      case Overlong => TooLong(pos)
      case NoAtom => Stuck
      case Skip(next, _) => Closed(next)
  }

  lemma AtomDecodes(data: seq<byte>, pos: nat)
    requires pos < |data| && data[pos] != LOWER_L && data[pos] != LOWER_D
    ensures var r := Decode(data, pos);
      match AtomAt(data, pos)
      case Overlong => r == Panicked
      case NoAtom => r == Rejected
      case Skip(next, text) => r.Parsed? && r.next == next && (text <==> r.v.Bytes? && IsUtf8(r.v.b))
  {
    hide ParseI64, ParseUsize, IsUtf8, Find;
  }

  /** What is left after the containers in `open`, when the data end within `extra` more. */
  function Ended(data: seq<byte>, open: seq<Place>, next: nat): Verdict
    requires next > |data|
  {
    if BadKey in open then Stuck else LeftOpen(|open| + (next - |data|))
  }

  /** The verdict on a container, `outer` being around it, from what the reader makes of the container. */
  ghost predicate Tells(data: seq<byte>, verdict: Verdict, r: Outcome, outer: seq<Place>) {
    match r
    case Panicked => verdict.TooLong?
    case Rejected => verdict == Stuck
    case Parsed(_, next) =>
      verdict == if next <= |data| then Scan(data, next, outer) else Ended(data, outer, next)
  }

  lemma Push(p: Place, q: Place, rest: seq<Place>)
    ensures [p, q] + rest == [p] + ([q] + rest)
  {}

  /** A value anywhere, read where something other than a key is expected. */
  lemma {:induction false} ValueTold(data: seq<byte>, pos: nat, p: Place, rest: seq<Place>)
    requires pos < |data| && (p == InList || p == AtValue) && (p == InList ==> data[pos] != LOWER_E)
    ensures Tells(data, Scan(data, pos, [p] + rest), Decode(data, pos), [Around(p)] + rest)
    decreases |data| - pos, 0
  {
    hide AtomAt;
    var open := [p] + rest;
    assert open[1..] == rest;
    if data[pos] == LOWER_L {
      Push(InList, Around(p), rest);
      ListTold(data, pos + 1, [], [Around(p)] + rest);
    } else if data[pos] == LOWER_D {
      Push(AtKey, Around(p), rest);
      DictTold(data, pos + 1, map[], [Around(p)] + rest);
    } else if data[pos] != LOWER_E {
      AtomDecodes(data, pos);
    }
  }

  /** A key: only a string is one, but another value is read to its end first. */
  lemma {:induction false} KeyTold(data: seq<byte>, pos: nat, rest: seq<Place>)
    requires pos < |data| && data[pos] != LOWER_E
    ensures var (verdict, r) := (Scan(data, pos, [AtKey] + rest), Decode(data, pos));
      if r.Parsed? then
        if r.v.Bytes? && IsUtf8(r.v.b) then r.next <= |data| && verdict == Scan(data, r.next, [AtValue] + rest)
        else verdict == Stuck
      else Tells(data, verdict, r, rest)
    decreases |data| - pos, 0
  {
    hide AtomAt, IsUtf8;
    var open := [AtKey] + rest;
    assert open[1..] == rest;
    var outer := [BadKey] + rest;
    if data[pos] == LOWER_L {
      Push(InList, BadKey, rest);
      ListTold(data, pos + 1, [], outer);
      ContainerKind(data, pos);
    } else if data[pos] == LOWER_D {
      Push(AtKey, BadKey, rest);
      DictTold(data, pos + 1, map[], outer);
      ContainerKind(data, pos);
    } else {
      AtomDecodes(data, pos);
    }
  }

  lemma ContainerKind(data: seq<byte>, pos: nat)
    requires pos < |data| && (data[pos] == LOWER_L || data[pos] == LOWER_D)
    ensures Decode(data, pos).Parsed? ==> !Decode(data, pos).v.Bytes?
  {
    if data[pos] == LOWER_L { ListKind(data, pos + 1, []); } else { DictKind(data, pos + 1, map[]); }
  }

  lemma {:induction false} ListKind(data: seq<byte>, cur: nat, items: seq<BVal>)
    ensures DecodeList(data, cur, items).Parsed? ==> DecodeList(data, cur, items).v.List?
    decreases |data| - cur
  {
    hide Decode;
    if cur < |data| && data[cur] != LOWER_E && Decode(data, cur).Parsed? {
      ListKind(data, Decode(data, cur).next, items + [Decode(data, cur).v]);
    }
  }

  lemma {:induction false} DictKind(data: seq<byte>, cur: nat, m: map<seq<byte>, BVal>)
    ensures DecodeDict(data, cur, m).Parsed? ==> DecodeDict(data, cur, m).v.Dict?
    decreases |data| - cur
  {
    hide Decode, IsUtf8;
    if cur < |data| && data[cur] != LOWER_E && Decode(data, cur).Parsed? {
      var key := Decode(data, cur);
      if key.v.Bytes? && IsUtf8(key.v.b) && Decode(data, key.next).Parsed? {
        DictKind(data, Decode(data, key.next).next, m[key.v.b := Decode(data, key.next).v]);
      }
    }
  }

  lemma {:induction false} ListTold(data: seq<byte>, cur: nat, items: seq<BVal>, outer: seq<Place>)
    requires cur <= |data|
    ensures Tells(data, Scan(data, cur, [InList] + outer), DecodeList(data, cur, items), outer)
    decreases |data| - cur, 1
  {
    hide AtomAt;
    var open := [InList] + outer;
    assert open[1..] == outer;
    if cur < |data| && data[cur] != LOWER_E {
      ValueTold(data, cur, InList, outer);
      var r := Decode(data, cur);
      if r.Parsed? && r.next <= |data| {
        ListTold(data, r.next, items + [r.v], outer);
      }
    }
  }

  lemma {:induction false} DictTold(data: seq<byte>, cur: nat, m: map<seq<byte>, BVal>, outer: seq<Place>)
    requires cur <= |data|
    ensures Tells(data, Scan(data, cur, [AtKey] + outer), DecodeDict(data, cur, m), outer)
    decreases |data| - cur, 1
  {
    hide AtomAt, IsUtf8, Decode;
    var open := [AtKey] + outer;
    assert open[1..] == outer;
    if cur < |data| && data[cur] != LOWER_E {
      KeyTold(data, cur, outer);
      var key := Decode(data, cur);
      if key.Parsed? && key.v.Bytes? && IsUtf8(key.v.b) {
        EntryTold(data, key.next, key.v.b, m, outer);
      }
    }
  }

  /** A value and the rest of its dictionary. */
  lemma {:induction false} EntryTold(data: seq<byte>, pos: nat, key: seq<byte>, m: map<seq<byte>, BVal>, outer: seq<Place>)
    requires pos <= |data|
    ensures var (verdict, r) := (Scan(data, pos, [AtValue] + outer), Decode(data, pos));
      Tells(data, verdict, if r.Parsed? then DecodeDict(data, r.next, m[key := r.v]) else r, outer)
    decreases |data| - pos, 2
  {
    hide AtomAt, IsUtf8, Decode;
    var open := [AtValue] + outer;
    if pos >= |data| {
      PastEnd(data, pos);
    } else {
      ValueTold(data, pos, AtValue, outer);
      var r := Decode(data, pos);
      if r.Parsed? && r.next <= |data| {
        DictTold(data, r.next, m[key := r.v], outer);
      }
    }
  }

  lemma PastEnd(data: seq<byte>, pos: nat)
    requires pos >= |data|
    ensures Decode(data, pos) == Rejected
  {}

  /** The digits up to the next colon are a length that would end behind 2^64. */
  ghost predicate OverlongAt(data: seq<byte>, at: nat) {
    && at < |data| && IsDigit(data[at])
    && var colon := Find(data, at, COLON);
      && colon.Some? && ParseUsize(data[at..colon.value]).Some?
      && colon.value + 1 + ParseUsize(data[at..colon.value]).value >= USIZE_LIMIT
  }

  lemma {:induction false} TooLongAt(data: seq<byte>, pos: nat, open: seq<Place>)
    ensures var verdict := Scan(data, pos, open); verdict.TooLong? ==> verdict.at >= pos && OverlongAt(data, verdict.at)
    decreases |data| - pos
  {
    hide OverlongAt;
    if open != [] && pos < |data| {
      if data[pos] == LOWER_E {
        TooLongAt(data, pos + 1, open[1..]);
      } else if data[pos] == LOWER_L {
        TooLongAt(data, pos + 1, [InList, Around(open[0])] + open[1..]);
      } else if data[pos] == LOWER_D {
        TooLongAt(data, pos + 1, [AtKey, Around(open[0])] + open[1..]);
      } else {
        AtomOverlong(data, pos);
        hide AtomAt;
        var a := AtomAt(data, pos);
        if a.Skip? {
          TooLongAt(data, a.next, [if open[0] == AtKey then AtValue else Around(open[0])] + open[1..]);
        }
      }
    }
  }

  lemma AtomOverlong(data: seq<byte>, pos: nat)
    requires pos < |data|
    ensures AtomAt(data, pos) == Overlong ==> OverlongAt(data, pos)
  {
    hide ParseI64, ParseUsize, IsUtf8, Find;
  }

  lemma NothingOpen(data: seq<byte>, pos: nat)
    ensures Scan(data, pos, []) == Closed(pos)
  {}

  /** For every data and position: the reader rejects exactly what the pass is stuck on, panics exactly at a
      length too great, and otherwise ends where the pass does, one further for each container that is
      left open. */
  lemma ScanDecides(data: seq<byte>, pos: nat)
    ensures match ScanValue(data, pos)
      case Stuck => Decode(data, pos) == Rejected
      case TooLong(at) => Decode(data, pos) == Panicked && OverlongAt(data, at)
      case Closed(next) => Decode(data, pos).Parsed? && Decode(data, pos).next == next <= |data|
      case LeftOpen(n) => Decode(data, pos).Parsed? && Decode(data, pos).next == |data| + n && n > 0
  {
    hide AtomAt, Scan, OverlongAt;
    TooLongAt(data, pos + 1, [InList]);
    TooLongAt(data, pos + 1, [AtKey]);
    if Decode(data, pos).Parsed? { NothingOpen(data, Decode(data, pos).next); }
    if pos >= |data| {
      PastEnd(data, pos);
    } else if data[pos] == LOWER_L {
      assert [InList] + [] == [InList];
      ListTold(data, pos + 1, [], []);
      assert Decode(data, pos) == DecodeList(data, pos + 1, []);
    } else if data[pos] == LOWER_D {
      assert [AtKey] + [] == [AtKey];
      DictTold(data, pos + 1, map[], []);
      assert Decode(data, pos) == DecodeDict(data, pos + 1, map[]);
    } else {
      AtomDecodes(data, pos);
      AtomOverlong(data, pos);
    }
  }
}
