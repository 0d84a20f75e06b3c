/** The bencode reader of backend/src/demagnetize.rs (BEP 3, section "bencoding"). */
module Bencode {
  import opened Wrappers

  type byte = b: int | 0 <= b < 0x100

  const COLON: byte := 58
  const PLUS: byte := 43
  const MINUS: byte := 45
  const LOWER_D: byte := 100
  const LOWER_E: byte := 101
  const LOWER_I: byte := 105
  const LOWER_L: byte := 108

  const I64_LIMIT: int := 0x8000_0000_0000_0000
  const USIZE_LIMIT: int := 0x1_0000_0000_0000_0000

  /** The source's `BVal`; a dictionary key is a string, given by its UTF-8 bytes. */
  datatype BVal =
    | Int(n: int)
    | Bytes(b: seq<byte>)
    | List(items: seq<BVal>)
    | Dict(entries: map<seq<byte>, BVal>)

  /** A value and the offset behind it, `None`, or a panic: the end of a byte string does not fit
      a `usize` (the addition panics, or wraps and the slice panics). */
  datatype Outcome = Parsed(v: BVal, next: nat) | Rejected | Panicked

  // ---------------------------------------------------------------- numbers and strings

  predicate IsDigit(b: byte) { 48 <= b <= 57 }

  /** Value of a non-empty row of decimal digits. */
  function DigitsValue(s: seq<byte>): (v: Option<nat>) {
    if s == [] || !IsDigit(s[|s| - 1]) then None
    else if |s| == 1 then Some(s[0] - 48)
    else match DigitsValue(s[..|s| - 1])
      case None => None
      case Some(v) => Some(10 * v + (s[|s| - 1] - 48))
  }

  /** `str::parse::<i64>`. */
  function ParseI64(s: seq<byte>): (v: Option<int>)
    ensures v.Some? ==> -I64_LIMIT <= v.value < I64_LIMIT
  {
    var signed := s != [] && (s[0] == PLUS || s[0] == MINUS);
    match DigitsValue(if signed then s[1..] else s)
    case None => None
    case Some(n) =>
      if signed && s[0] == MINUS then (var k: int := n; if k <= I64_LIMIT then Some(-k) else None)
      else if n < I64_LIMIT then Some(n) else None
  }

  /** `str::parse::<usize>`. */
  function ParseUsize(s: seq<byte>): (v: Option<nat>)
    ensures v.Some? ==> v.value < USIZE_LIMIT
  {
    match DigitsValue(if s != [] && s[0] == PLUS then s[1..] else s)
    case None => None
    case Some(n) => if n < USIZE_LIMIT then Some(n) else None
  }

  /** First position at or after `from` that holds `b`. */
  function Find(data: seq<byte>, from: nat, b: byte): (p: Option<nat>)
    ensures p.Some? ==> from <= p.value < |data| && data[p.value] == b
    ensures p.Some? ==> forall i :: from <= i < p.value ==> data[i] != b
    ensures p.None? ==> forall i :: from <= i < |data| ==> data[i] != b
    decreases |data| - from
  {
    if from >= |data| then None else if data[from] == b then Some(from) else Find(data, from + 1, b)
  }

  predicate Continuation(b: byte) { 0x80 <= b < 0xC0 }

  /** Length of the well-formed UTF-8 sequence at the start of `s`, 0 if there is none. */
  function Utf8Step(s: seq<byte>): (n: nat)
    requires s != []
    ensures n <= |s|
  {
    var a := s[0];
    if a < 0x80 then 1
    else if |s| >= 2 && 0xC2 <= a < 0xE0 && Continuation(s[1]) then 2
    else if |s| >= 3 && 0xE0 <= a < 0xF0 && Continuation(s[1]) && Continuation(s[2])
            && (a == 0xE0 ==> s[1] >= 0xA0) && (a == 0xED ==> s[1] < 0xA0) then 3
    else if |s| >= 4 && 0xF0 <= a < 0xF5 && Continuation(s[1]) && Continuation(s[2]) && Continuation(s[3])
            && (a == 0xF0 ==> s[1] >= 0x90) && (a == 0xF4 ==> s[1] < 0x90) then 4
    else 0
  }

  /** `String::from_utf8` succeeds. */
  predicate IsUtf8(s: seq<byte>) {
    s == [] || (Utf8Step(s) > 0 && IsUtf8(s[Utf8Step(s)..]))
  }

  // ---------------------------------------------------------------- the reader as a function

  /** `decode_bval`. The offset returned always lies behind the start; it may lie behind the end of
      the data when a list or dictionary is not terminated. */
  function Decode(data: seq<byte>, pos: nat): (r: Outcome)
    ensures r.Parsed? ==> r.next > pos
    decreases |data| - pos, 0
  {
    if pos >= |data| then Rejected
    else if data[pos] == LOWER_I then
      match Find(data, pos + 1, LOWER_E)
      case None => Rejected
      case Some(end) =>
        match ParseI64(data[pos + 1..end])
        case None => Rejected
        case Some(n) => Parsed(Int(n), end + 1)
    else if data[pos] == LOWER_L then DecodeList(data, pos + 1, [])
    else if data[pos] == LOWER_D then DecodeDict(data, pos + 1, map[])
    else if IsDigit(data[pos]) then
      match Find(data, pos, COLON)
      case None => Rejected
      case Some(colon) =>
        match ParseUsize(data[pos..colon])
        case None => Rejected
        case Some(len) =>
          var start := colon + 1;
          if start + len >= USIZE_LIMIT then Panicked
          else if start + len <= |data| then Parsed(Bytes(data[start..start + len]), start + len)
          else Rejected
    else Rejected
  }

  /** The list loop with `cur` and the items pushed so far. */
  function DecodeList(data: seq<byte>, cur: nat, items: seq<BVal>): (r: Outcome)
    ensures r.Parsed? ==> r.next > cur
    decreases |data| - cur, 1
  {
    if cur >= |data| || data[cur] == LOWER_E then Parsed(List(items), cur + 1)
    else
      match Decode(data, cur)
      case Parsed(v, next) => DecodeList(data, next, items + [v])
      case Rejected => Rejected
      case Panicked => Panicked
  }

  /** The dictionary loop with `cur` and the entries inserted so far. */
  function DecodeDict(data: seq<byte>, cur: nat, entries: map<seq<byte>, BVal>): (r: Outcome)
    ensures r.Parsed? ==> r.next > cur
    decreases |data| - cur, 1
  {
    if cur >= |data| || data[cur] == LOWER_E then Parsed(Dict(entries), cur + 1)
    else
      match Decode(data, cur)
      case Rejected => Rejected
      case Panicked => Panicked
      case Parsed(key, nk) =>
        if !key.Bytes? || !IsUtf8(key.b) then Rejected
        else
          match Decode(data, nk)
          case Rejected => Rejected
          case Panicked => Panicked
          case Parsed(v, nv) => DecodeDict(data, nv, entries[key.b := v])
  }

  // ---------------------------------------------------------------- the reader with its loops

  method DecodeBVal(data: seq<byte>, pos: nat) returns (r: Outcome)
    ensures r == Decode(data, pos)
    decreases |data| - pos
  {
    if pos >= |data| {
      return Rejected;
    }
    var tag := data[pos];
    if tag == LOWER_I {
      var end := Find(data, pos + 1, LOWER_E);
      if end.None? {
        return Rejected;
      }
      var n := ParseI64(data[pos + 1..end.value]);
      return if n.None? then Rejected else Parsed(Int(n.value), end.value + 1);
    } else if tag == LOWER_L {
      var cur := pos + 1;
      var list: seq<BVal> := [];
      while cur < |data| && data[cur] != LOWER_E
        invariant pos < cur && Decode(data, pos) == DecodeList(data, cur, list)
        decreases |data| - cur
      {
        var item := DecodeBVal(data, cur);
        if !item.Parsed? {
          return item;
        }
        list := list + [item.v];
        cur := item.next;
      }
      return Parsed(List(list), cur + 1);
    } else if tag == LOWER_D {
      var cur := pos + 1;
      var dict: map<seq<byte>, BVal> := map[];
      while cur < |data| && data[cur] != LOWER_E
        invariant pos < cur && Decode(data, pos) == DecodeDict(data, cur, dict)
        decreases |data| - cur
      {
        var key := DecodeBVal(data, cur);
        if !key.Parsed? {
          return key;
        }
        if !key.v.Bytes? || !IsUtf8(key.v.b) {
          return Rejected;
        }
        var val := DecodeBVal(data, key.next);
        if !val.Parsed? {
          return val;
        }
        dict := dict[key.v.b := val.v];
        cur := val.next;
      }
      return Parsed(Dict(dict), cur + 1);
    } else if IsDigit(tag) {
      var colon := Find(data, pos, COLON);
      if colon.None? {
        return Rejected;
      }
      var len := ParseUsize(data[pos..colon.value]);
      if len.None? {
        return Rejected;
      }
      var start := colon.value + 1;
      if start + len.value >= USIZE_LIMIT {
        return Panicked;
      }
      var end := start + len.value;
      return if end <= |data| then Parsed(Bytes(data[start..end]), end) else Rejected;
    }
    return Rejected;
  }

  // ---------------------------------------------------------------- the encoding

  /** What is written: dictionaries are rows of entries, in the order of the file. */
  datatype Tree =
    | TInt(n: int)
    | TBytes(b: seq<byte>)
    | TList(items: seq<Tree>)
    | TDict(entries: seq<Entry>)
  datatype Entry = Entry(key: seq<byte>, val: Tree)

  function Decimal(n: nat): (s: seq<byte>)
    ensures s != [] && forall i :: 0 <= i < |s| ==> IsDigit(s[i])
  {
    if n < 10 then [48 + n] else Decimal(n / 10) + [48 + n % 10]
  }

  function EncodeBytes(b: seq<byte>): (s: seq<byte>)
    ensures s != [] && IsDigit(s[0])
  {
    Decimal(|b|) + [COLON] + b
  }

  function Encode(t: Tree): (s: seq<byte>)
    ensures s != [] && s[0] != LOWER_E
  {
    match t
    case TInt(n) => [LOWER_I] + Signed(n) + [LOWER_E]
    case TBytes(b) => EncodeBytes(b)
    case TList(items) => [LOWER_L] + EncodeItems(items) + [LOWER_E]
    case TDict(entries) => [LOWER_D] + EncodeEntries(entries) + [LOWER_E]
  }

  function EncodeItems(items: seq<Tree>): seq<byte> {
    if items == [] then [] else Encode(items[0]) + EncodeItems(items[1..])
  }

  function EncodeEntries(entries: seq<Entry>): seq<byte> {
    if entries == [] then []
    else EncodeBytes(entries[0].key) + Encode(entries[0].val) + EncodeEntries(entries[1..])
  }

  /** The value a tree stands for; of entries with the same key the last one counts. */
  function ValueOf(t: Tree): BVal {
    match t
    case TInt(n) => Int(n)
    case TBytes(b) => Bytes(b)
    case TList(items) => List(ValuesOf(items))
    case TDict(entries) => Dict(Insert(map[], entries))
  }

  function ValuesOf(items: seq<Tree>): (vs: seq<BVal>)
    ensures |vs| == |items|
  {
    if items == [] then [] else [ValueOf(items[0])] + ValuesOf(items[1..])
  }

  function Insert(m: map<seq<byte>, BVal>, entries: seq<Entry>): map<seq<byte>, BVal>
    decreases entries
  {
    if entries == [] then m
    else Insert(m[entries[0].key := ValueOf(entries[0].val)], entries[1..])
  }

  /** Integers fit 64 bits and keys are UTF-8, at every depth. */
  predicate Encodable(t: Tree) {
    match t
    case TInt(n) => -I64_LIMIT <= n < I64_LIMIT
    case TBytes(_) => true
    case TList(items) => forall i :: 0 <= i < |items| ==> Encodable(items[i])
    case TDict(entries) =>
      forall i :: 0 <= i < |entries| ==> IsUtf8(entries[i].key) && Encodable(entries[i].val)
  }

  // ---------------------------------------------------------------- round trip

  lemma {:induction false} DecimalBack(n: nat)
    ensures DigitsValue(Decimal(n)) == Some(n)
  {
    if n >= 10 {
      DecimalBack(n / 10);
      var s := Decimal(n);
      assert s[..|s| - 1] == Decimal(n / 10);
    }
  }

  lemma FindFirst(data: seq<byte>, from: nat, at: nat, b: byte)
    requires from <= at < |data| && data[at] == b
    requires forall i :: from <= i < at ==> data[i] != b
    ensures Find(data, from, b) == Some(at)
  {}

  /** An integer as it is written between `i` and `e`. */
  function Signed(n: int): (s: seq<byte>)
    ensures forall i :: 0 <= i < |s| ==> s[i] != LOWER_E
  {
    if n < 0 then [MINUS] + Decimal(-n) else Decimal(n)
  }

  lemma SignedBack(n: int)
    requires -I64_LIMIT <= n < I64_LIMIT
    ensures ParseI64(Signed(n)) == Some(n)
  {
    hide Decimal, DigitsValue;
    DecimalBack(if n < 0 then -n else n);
    if n < 0 { assert Signed(n)[1..] == Decimal(-n); }
  }

  lemma IntBack(pre: seq<byte>, n: int, post: seq<byte>)
    requires -I64_LIMIT <= n < I64_LIMIT
    ensures var s := Encode(TInt(n)); Decode(pre + s + post, |pre|) == Parsed(Int(n), |pre| + |s|)
  {
    hide Signed, ParseI64, Find;
    var digits, s := Signed(n), Encode(TInt(n));
    var data := pre + s + post;
    var end := |pre| + 1 + |digits|;
    assert data[|pre|] == LOWER_I && data[end] == LOWER_E;
    assert data[|pre| + 1..end] == digits;
    forall i | |pre| + 1 <= i < end ensures data[i] != LOWER_E {
      assert data[i] == digits[i - |pre| - 1];
    }
    FindFirst(data, |pre| + 1, end, LOWER_E);
    SignedBack(n);
  }

  lemma LengthBack(n: nat)
    requires n < USIZE_LIMIT
    ensures ParseUsize(Decimal(n)) == Some(n)
  {
    DecimalBack(n);
  }

  lemma BytesBack(pre: seq<byte>, b: seq<byte>, post: seq<byte>)
    requires |pre + EncodeBytes(b) + post| < USIZE_LIMIT
    ensures var s := EncodeBytes(b); Decode(pre + s + post, |pre|) == Parsed(Bytes(b), |pre| + |s|)
  {
    hide Decimal, ParseUsize, Find;
    var digits := Decimal(|b|);
    var s := EncodeBytes(b);
    var data := pre + s + post;
    var colon := |pre| + |digits|;
    assert data[|pre|] == digits[0] && data[colon] == COLON;
    assert data[|pre|..colon] == digits;
    forall i | |pre| <= i < colon ensures data[i] != COLON {
      assert data[i] == digits[i - |pre|];
    }
    FindFirst(data, |pre|, colon, COLON);
    LengthBack(|b|);
    assert data[colon + 1..colon + 1 + |b|] == b;
  }

  /** Decoding at any offset returns exactly the value written there and the offset behind it. */
  lemma {:induction false} RoundTrip(pre: seq<byte>, t: Tree, post: seq<byte>)
    requires Encodable(t) && |pre + Encode(t) + post| < USIZE_LIMIT
    ensures Decode(pre + Encode(t) + post, |pre|) == Parsed(ValueOf(t), |pre| + |Encode(t)|)
    decreases t, 0
  {
    hide Decode, DecodeList, DecodeDict, Encode, EncodeBytes;
    var data := pre + Encode(t) + post;
    match t
    case TInt(n) => IntBack(pre, n, post);
    case TBytes(b) =>
      EncodeShape(t);
      BytesBack(pre, b, post);
    case TList(items) =>
      EncodeShape(t);
      var pre', post' := pre + [LOWER_L], [LOWER_E] + post;
      assert data == pre' + EncodeItems(items) + post';
      ItemsBack(pre', items, post', []);
      assert [] + ValuesOf(items) == ValuesOf(items);
      assert data[|pre|] == LOWER_L;
      OpenList(data, |pre|);
    case TDict(entries) =>
      EncodeShape(t);
      var pre', post' := pre + [LOWER_D], [LOWER_E] + post;
      assert data == pre' + EncodeEntries(entries) + post';
      EntriesBack(pre', entries, post', map[]);
      assert data[|pre|] == LOWER_D;
      OpenDict(data, |pre|);
  }

  lemma EncodeShape(t: Tree)
    ensures t.TBytes? ==> Encode(t) == EncodeBytes(t.b)
    ensures t.TList? ==> Encode(t) == [LOWER_L] + EncodeItems(t.items) + [LOWER_E]
    ensures t.TDict? ==> Encode(t) == [LOWER_D] + EncodeEntries(t.entries) + [LOWER_E]
  {}

  lemma OpenList(data: seq<byte>, pos: nat)
    requires pos < |data| && data[pos] == LOWER_L
    ensures Decode(data, pos) == DecodeList(data, pos + 1, [])
  {}

  lemma OpenDict(data: seq<byte>, pos: nat)
    requires pos < |data| && data[pos] == LOWER_D
    ensures Decode(data, pos) == DecodeDict(data, pos + 1, map[])
  {}

  lemma {:induction false} ItemsBack(pre: seq<byte>, items: seq<Tree>, post: seq<byte>, done: seq<BVal>)
    requires forall i :: 0 <= i < |items| ==> Encodable(items[i])
    requires post != [] && post[0] == LOWER_E && |pre + EncodeItems(items) + post| < USIZE_LIMIT
    ensures DecodeList(pre + EncodeItems(items) + post, |pre|, done)
         == Parsed(List(done + ValuesOf(items)), |pre| + |EncodeItems(items)| + 1)
    decreases items, 1
  {
    hide Decode, Encode;
    var data := pre + EncodeItems(items) + post;
    if items == [] {
      assert data[|pre|] == post[0];
      assert done + ValuesOf(items) == done;
    } else {
      var first, rest := Encode(items[0]), EncodeItems(items[1..]);
      assert data == pre + first + (rest + post);
      assert data == (pre + first) + rest + post;
      RoundTrip(pre, items[0], rest + post);
      assert data[|pre|] == first[0];
      ItemsBack(pre + first, items[1..], post, done + [ValueOf(items[0])]);
      assert done + [ValueOf(items[0])] + ValuesOf(items[1..]) == done + ValuesOf(items);
    }
  }

  lemma {:induction false} EntriesBack(pre: seq<byte>, entries: seq<Entry>, post: seq<byte>, done: map<seq<byte>, BVal>)
    requires forall i :: 0 <= i < |entries| ==> IsUtf8(entries[i].key) && Encodable(entries[i].val)
    requires post != [] && post[0] == LOWER_E && |pre + EncodeEntries(entries) + post| < USIZE_LIMIT
    ensures DecodeDict(pre + EncodeEntries(entries) + post, |pre|, done)
         == Parsed(Dict(Insert(done, entries)), |pre| + |EncodeEntries(entries)| + 1)
    decreases entries, 1
  {
    hide Decode, Encode, EncodeBytes, IsUtf8;
    var data := pre + EncodeEntries(entries) + post;
    if entries == [] {
      assert data[|pre|] == post[0];
    } else {
      var key, val, rest := EncodeBytes(entries[0].key), Encode(entries[0].val), EncodeEntries(entries[1..]);
      assert data == pre + key + (val + rest + post);
      assert data == (pre + key) + val + (rest + post);
      assert data == (pre + key + val) + rest + post;
      BytesBack(pre, entries[0].key, val + rest + post);
      RoundTrip(pre + key, entries[0].val, rest + post);
      assert data[|pre|] == key[0];
      EntriesBack(pre + key + val, entries[1..], post, done[entries[0].key := ValueOf(entries[0].val)]);
    }
  }

  // ---------------------------------------------------------------- what can come out

  /** Integers fit 64 bits and dictionary keys are strings, at every depth. */
  ghost predicate Representable(v: BVal) {
    match v
    case Int(n) => -I64_LIMIT <= n < I64_LIMIT
    case Bytes(_) => true
    case List(items) => forall i :: 0 <= i < |items| ==> Representable(items[i])
    case Dict(entries) => forall k :: k in entries ==> IsUtf8(k) && Representable(entries[k])
  }

  lemma {:induction false} DecodedRepresentable(data: seq<byte>, pos: nat)
    ensures var r := Decode(data, pos); r.Parsed? ==> Representable(r.v)
    decreases |data| - pos, 0
  {
    if pos < |data| {
      if data[pos] == LOWER_L { ListRepresentable(data, pos + 1, []); }
      if data[pos] == LOWER_D { DictRepresentable(data, pos + 1, map[]); }
    }
  }

  lemma {:induction false} ListRepresentable(data: seq<byte>, cur: nat, items: seq<BVal>)
    requires Representable(List(items))
    ensures var r := DecodeList(data, cur, items); r.Parsed? ==> Representable(r.v)
    decreases |data| - cur, 1
  {
    if cur < |data| && data[cur] != LOWER_E {
      DecodedRepresentable(data, cur);
      var item := Decode(data, cur);
      if item.Parsed? { ListRepresentable(data, item.next, items + [item.v]); }
    }
  }

  lemma {:induction false} DictRepresentable(data: seq<byte>, cur: nat, entries: map<seq<byte>, BVal>)
    requires Representable(Dict(entries))
    ensures var r := DecodeDict(data, cur, entries); r.Parsed? ==> Representable(r.v)
    decreases |data| - cur, 1
  {
    if cur < |data| && data[cur] != LOWER_E {
      var key := Decode(data, cur);
      if key.Parsed? && key.v.Bytes? && IsUtf8(key.v.b) {
        DecodedRepresentable(data, key.next);
        var val := Decode(data, key.next);
        if val.Parsed? { DictRepresentable(data, val.next, entries[key.v.b := val.v]); }
      }
    }
  }
}
