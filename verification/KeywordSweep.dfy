/** The keyword sweep over the media table and its pattern compiler (backend/src/state.rs), with the
    in-memory filter that is applied beside it. */
module KeywordSweep {
  import opened Basics
  import opened Wrappers

  // ---------------------------------------------------------------- text

  predicate ContainsAny(text: string, terms: seq<string>) {
    exists k :: 0 <= k < |terms| && Contains(text, terms[k])
  }

  // ---------------------------------------------------------------- printing the pattern

  predicate IsMeta(c: char) {
    c in {'\\', '.', '^', '$', '*', '+', '?', '(', ')', '[', ']', '{', '}', '|'}
  }

  function Escape(t: string): string {
    if t == [] then [] else EscapeChar(t[0]) + Escape(t[1..])
  }

  function EscapeChar(c: char): string {
    if IsMeta(c) then ['\\', c] else [c]
  }

  /** `join("|")` over the escaped terms. */
  function Joined(terms: seq<string>): string
    requires terms != []
  {
    if |terms| == 1 then Escape(terms[0]) else Escape(terms[0]) + "|" + Joined(terms[1..])
  }

  function Pattern(terms: seq<string>): Option<string> {
    if terms == [] then None else Some("(" + Joined(terms) + ")")
  }

  /** `build_regex_pattern`. */
  method BuildRegexPattern(terms: seq<string>) returns (pattern: Option<string>)
    ensures pattern == Pattern(terms)
  {
    if terms == [] {
      return None;
    }
    var escaped := EscapeTerm(terms[0]);
    var i := 1;
    assert terms[..1] == [terms[0]];
    while i < |terms|
      invariant 1 <= i <= |terms| && escaped == Joined(terms[..i])
    {
      var term := EscapeTerm(terms[i]);
      JoinedSnoc(terms[..i], terms[i]);
      assert terms[..i + 1] == terms[..i] + [terms[i]];
      escaped := escaped + "|" + term;
      i := i + 1;
    }
    assert terms[..i] == terms;
    return Some("(" + escaped + ")");
  }

  lemma {:induction false} JoinedSnoc(terms: seq<string>, t: string)
    requires terms != []
    ensures Joined(terms + [t]) == Joined(terms) + "|" + Escape(t)
  {
    assert (terms + [t])[1..] == terms[1..] + [t];
    if |terms| > 1 { JoinedSnoc(terms[1..], t); }
  }

  lemma EscapeStep(t: string, i: nat)
    requires i < |t|
    ensures Escape(t[i..]) == EscapeChar(t[i]) + Escape(t[i + 1..])
  {
    assert t[i..][1..] == t[i + 1..];
  }

  /** The inner push loop. */
  method EscapeTerm(t: string) returns (out: string)
    ensures out == Escape(t)
  {
    hide IsMeta, Escape;
    out := [];
    var i := 0;
    assert t[0..] == t && [] + Escape(t) == Escape(t);
    while i < |t|
      invariant 0 <= i <= |t| && Escape(t) == out + Escape(t[i..])
    {
      var c := t[i];
      EscapeStep(t, i);
      ghost var before := out;
      if IsMeta(c) {
        out := out + ['\\'];
      }
      out := out + [c];
      assert out == before + EscapeChar(c);
      assert before + (EscapeChar(c) + Escape(t[i + 1..])) == out + Escape(t[i + 1..]);
      i := i + 1;
    }
    EscapeNothing(t);
    assert out + [] == out;
  }

  lemma EscapeNothing(t: string)
    ensures Escape(t[|t|..]) == []
  {}

  // ---------------------------------------------------------------- reading the pattern

  /** Regular expressions, as far as alternations of literals need them. */
  datatype Re = Eps | Ch(c: char) | Cat(first: Re, rest: Re) | Alt(left: Re, right: Re)

  predicate Matches(r: Re, s: string) {
    match r
    case Eps => s == []
    case Ch(c) => s == [c]
    case Cat(a, b) => exists i :: 0 <= i <= |s| && Matches(a, s[..i]) && Matches(b, s[i..])
    case Alt(a, b) => Matches(a, s) || Matches(b, s)
  }

  /** The operator `~`: some stretch of the text matches. */
  predicate Finds(r: Re, text: string) {
    exists i, j :: 0 <= i <= j <= |text| && Matches(r, text[i..j])
  }

  /** A parsed expression and the position behind it. */
  datatype Parsed = Parsed(re: Re, next: nat)

  /** Branches separated by `|`. */
  function ParseAlt(p: string, i: nat): (r: Option<Parsed>)
    ensures r.Some? && i <= |p| ==> i <= r.value.next <= |p|
    decreases |p| - i, 2
  {
    match ParseBranch(p, i)
    case None => None
    case Some(b) =>
      if b.next < |p| && p[b.next] == '|' && i <= b.next then
        match ParseAlt(p, b.next + 1)
        case None => None
        case Some(rest) => Some(Parsed(Alt(b.re, rest.re), rest.next))
      else Some(b)
  }

  /** A possibly empty row of atoms. */
  function ParseBranch(p: string, i: nat): (r: Option<Parsed>)
    ensures r.Some? && i <= |p| ==> i <= r.value.next <= |p|
    decreases |p| - i, 1
  {
    if i >= |p| || p[i] == '|' || p[i] == ')' then Some(Parsed(Eps, i))
    else
      match ParseAtom(p, i)
      case None => None
      case Some(a) =>
        match ParseBranch(p, a.next)
        case None => None
        case Some(rest) => Some(Parsed(Cat(a.re, rest.re), rest.next))
  }

  /** A group, an escaped metacharacter, or an ordinary character; other constructs are outside
      the fragment. */
  function ParseAtom(p: string, i: nat): (r: Option<Parsed>)
    requires i < |p|
    ensures r.Some? ==> i < r.value.next <= |p|
    decreases |p| - i, 0
  {
    if p[i] == '(' then
      match ParseAlt(p, i + 1)
      case None => None
      case Some(inner) =>
        if inner.next < |p| && p[inner.next] == ')' then Some(Parsed(inner.re, inner.next + 1)) else None
    else if p[i] == '\\' then
      if i + 1 < |p| && IsMeta(p[i + 1]) then Some(Parsed(Ch(p[i + 1]), i + 2)) else None
    else if IsMeta(p[i]) then None
    else Some(Parsed(Ch(p[i]), i + 1))
  }

  /** A whole pattern. */
  function Parse(p: string): Option<Re> {
    match ParseAlt(p, 0)
    case None => None
    case Some(r) => if r.next == |p| then Some(r.re) else None
  }

  // ---------------------------------------------------------------- the pattern means its terms

  function Literal(t: string): Re {
    if t == [] then Eps else Cat(Ch(t[0]), Literal(t[1..]))
  }

  function AnyOf(terms: seq<string>): Re
    requires terms != []
  {
    if |terms| == 1 then Literal(terms[0]) else Alt(Literal(terms[0]), AnyOf(terms[1..]))
  }

  /** An escaped term reads back as its characters, up to the separator or bracket behind it. */
  lemma {:induction false} ParseTerm(pre: string, t: string, post: string)
    requires post != [] && (post[0] == '|' || post[0] == ')')
    ensures ParseBranch(pre + Escape(t) + post, |pre|) == Some(Parsed(Literal(t), |pre| + |Escape(t)|))
    decreases |t|
  {
    var p := pre + Escape(t) + post;
    if t == [] {
      assert p == pre + post;
      assert p[|pre|] == post[0];
    } else {
      var first := EscapeChar(t[0]);
      assert p == (pre + first) + Escape(t[1..]) + post;
      ParseTerm(pre + first, t[1..], post);
      assert p[|pre|] == first[0];
      if IsMeta(t[0]) { assert p[|pre| + 1] == first[1]; }
      assert ParseAtom(p, |pre|) == Some(Parsed(Ch(t[0]), |pre| + |first|));
    }
  }

  lemma {:induction false} ParseJoined(pre: string, terms: seq<string>, post: string)
    requires terms != [] && post != [] && post[0] == ')'
    ensures ParseAlt(pre + Joined(terms) + post, |pre|) == Some(Parsed(AnyOf(terms), |pre| + |Joined(terms)|))
    decreases |terms|
  {
    hide ParseBranch, ParseAtom, Escape, Literal;
    var p := pre + Joined(terms) + post;
    var first := Escape(terms[0]);
    if |terms| == 1 {
      ParseTerm(pre, terms[0], post);
      assert p[|pre| + |first|] == post[0];
    } else {
      var rest := "|" + Joined(terms[1..]) + post;
      assert p == pre + first + rest;
      ParseTerm(pre, terms[0], rest);
      assert p[|pre| + |first|] == rest[0];
      var pre' := pre + first + "|";
      assert p == pre' + Joined(terms[1..]) + post;
      ParseJoined(pre', terms[1..], post);
    }
  }

  /** Every compiled list is a well-formed pattern, and means the alternation of its terms. */
  lemma PatternParses(terms: seq<string>)
    requires terms != []
    ensures Parse(Pattern(terms).value) == Some(Cat(AnyOf(terms), Eps))
  {
    hide AnyOf, Joined, IsMeta;
    var p := Pattern(terms).value;
    assert p == "(" + Joined(terms) + ")";
    ParseJoined("(", terms, ")");
    assert p[1 + |Joined(terms)|] == ')';
    assert ParseAtom(p, 0) == Some(Parsed(AnyOf(terms), |p|));
    assert ParseBranch(p, |p|) == Some(Parsed(Eps, |p|));
    assert p[0] == '(';
    assert ParseBranch(p, 0) == Some(Parsed(Cat(AnyOf(terms), Eps), |p|));
    assert ParseAlt(p, 0) == Some(Parsed(Cat(AnyOf(terms), Eps), |p|));
  }

  lemma {:induction false} LiteralMatches(t: string, s: string)
    ensures Matches(Literal(t), s) <==> s == t
  {
    if t != [] {
      if s != [] {
        LiteralMatches(t[1..], s[1..]);
        assert s[..1] == [s[0]];
        if s == t { assert Matches(Ch(t[0]), s[..1]) && Matches(Literal(t[1..]), s[1..]); }
      }
      if Matches(Literal(t), s) {
        var i :| 0 <= i <= |s| && Matches(Ch(t[0]), s[..i]) && Matches(Literal(t[1..]), s[i..]);
        assert i == 1;
        assert s == [t[0]] + t[1..];
      }
    }
  }

  lemma {:induction false} AnyOfMatches(terms: seq<string>, s: string)
    requires terms != []
    ensures Matches(AnyOf(terms), s) <==> s in terms
  {
    LiteralMatches(terms[0], s);
    if |terms| > 1 {
      AnyOfMatches(terms[1..], s);
      assert s in terms <==> s == terms[0] || s in terms[1..];
    }
  }

  /** What PostgreSQL's `text ~ pattern` computes, on the fragment. */
  predicate RegexFinds(pattern: string, text: string) {
    Parse(pattern).Some? && Finds(Parse(pattern).value, text)
  }

  /** Searching for the compiled pattern is the same as searching for any of its terms, whatever
      metacharacters the terms contain. */
  lemma PatternFindsTerms(terms: seq<string>, text: string)
    requires terms != []
    ensures RegexFinds(Pattern(terms).value, text) <==> ContainsAny(text, terms)
  {
    hide Parse, Pattern, AnyOf;
    PatternParses(terms);
    var re := Cat(AnyOf(terms), Eps);
    forall s ensures Matches(re, s) <==> s in terms {
      GroupMatches(AnyOf(terms), s);
      AnyOfMatches(terms, s);
    }
    if Finds(re, text) {
      var i, j :| 0 <= i <= j <= |text| && Matches(re, text[i..j]);
      var k :| 0 <= k < |terms| && terms[k] == text[i..j];
      assert OccursAt(text, terms[k], i);
    }
    if ContainsAny(text, terms) {
      var k :| 0 <= k < |terms| && Contains(text, terms[k]);
      var i :| 0 <= i <= |text| && OccursAt(text, terms[k], i);
      assert Matches(re, text[i..i + |terms[k]|]);
    }
  }

  lemma GroupMatches(r: Re, s: string)
    ensures Matches(Cat(r, Eps), s) <==> Matches(r, s)
  {
    assert s[..|s|] == s;
    if Matches(r, s) { assert Matches(Eps, s[|s|..]); }
    if Matches(Cat(r, Eps), s) {
      var i :| 0 <= i <= |s| && Matches(r, s[..i]) && Matches(Eps, s[i..]);
      assert i == |s|;
    }
  }

  // ---------------------------------------------------------------- the sweep

  /** A media row, as far as the sweep reads or writes it. */
  datatype Row = Row(title: string, description: Option<string>, adult: bool, blocked: bool)

  function Description(row: Row): string {
    match row.description case None => "" case Some(d) => d
  }

  /** `new_blocked` of the batch statement, patterns being NULL for empty lists. */
  predicate NewBlocked(row: Row, keywords: Option<string>, whitelist: Option<string>) {
    var ltitle, ldesc := Lower(row.title), Lower(Description(row));
    || row.adult
    || (&& keywords.Some?
        && (RegexFinds(keywords.value, ltitle) || RegexFinds(keywords.value, ldesc))
        && (whitelist.None? || !(RegexFinds(whitelist.value, ltitle) || RegexFinds(whitelist.value, ldesc))))
  }

  /** What the flag means: the row is adult, or a keyword occurs in its title or description and no
      whitelist phrase does. */
  ghost predicate ShouldBlock(row: Row, keywords: seq<string>, whitelist: seq<string>) {
    var ltitle, ldesc := Lower(row.title), Lower(Description(row));
    || row.adult
    || (&& (ContainsAny(ltitle, keywords) || ContainsAny(ldesc, keywords))
        && !(ContainsAny(ltitle, whitelist) || ContainsAny(ldesc, whitelist)))
  }

  lemma NewBlockedMeans(row: Row, keywords: seq<string>, whitelist: seq<string>)
    ensures NewBlocked(row, Pattern(keywords), Pattern(whitelist)) <==> ShouldBlock(row, keywords, whitelist)
  {
    hide RegexFinds;
    var ltitle, ldesc := Lower(row.title), Lower(Description(row));
    if keywords != [] {
      PatternFindsTerms(keywords, ltitle);
      PatternFindsTerms(keywords, ldesc);
    }
    if whitelist != [] {
      PatternFindsTerms(whitelist, ltitle);
      PatternFindsTerms(whitelist, ldesc);
    }
  }

  /** Ids, and the loop variable of the sweep, are 32-bit. */
  const MAX_ID: int := 0x7FFF_FFFF
  const BATCH_SIZE: int := 500

  /** The sum of two 32-bit integers as a release build computes it; a checked build panics instead if it
      does not fit. */
  function Wrapped(n: int): int {
    if n > MAX_ID then n - 0x1_0000_0000 else n
  }

  /** `from_id` after `n` batches. */
  function From(n: nat): (id: int)
    ensures -MAX_ID - 1 <= id <= MAX_ID && id % 4 == 0
  {
    if n == 0 then 0 else Wrapped(From(n - 1) + BATCH_SIZE)
  }

  /** How the database answers one batch: the statement's success, whether one that fails takes effect all
      the same, and whether a newer version is requested by then. */
  datatype Reply = Reply(ok: bool, applied: bool, superseded: bool)

  /** `true`, `false`, or still under way. */
  datatype Outcome = Done | Failed | Unfinished

  /** The row after its batch. */
  ghost function Refreshed(row: Row, keywords: seq<string>, whitelist: seq<string>): Row {
    row.(blocked := ShouldBlock(row, keywords, whitelist))
  }

  lemma NonEmpty(s: set<int>)
    requires s != {}
    ensures exists x :: x in s
  {
    if forall x :: x !in s { assert false; }
  }

  class MediaTable {
    var rows: map<int, Row>

    ghost predicate Valid()
      reads this
    {
      forall id :: id in rows ==> -MAX_ID - 1 <= id <= MAX_ID
    }

    /** `SELECT MAX(id)`. */
    method MaxId() returns (max: Option<int>)
      ensures max.None? <==> rows == map[]
      ensures max.Some? ==> max.value in rows && forall id :: id in rows ==> id <= max.value
    {
      max := None;
      var left: set<int> := rows.Keys;
      while left != {}
        invariant left <= rows.Keys
        invariant max.None? ==> left == rows.Keys
        invariant max.Some? ==> max.value in rows && forall id :: id in rows && id !in left ==> id <= max.value
        decreases |left|
      {
        NonEmpty(left);
        var id :| id in left;
        if max.None? || max.value < id {
          max := Some(id);
        }
        left := left - {id};
      }
      if max.None? { assert rows.Keys == {}; }
    }

    /** The batch statement over `fromId < id <= toId`. */
    method UpdateBatch(fromId: int, toId: int, kwPattern: Option<string>, wlPattern: Option<string>)
      modifies this
      ensures rows.Keys == old(rows).Keys
      ensures forall id :: id in rows ==> rows[id] == BatchRow(old(rows)[id], id, fromId, toId, kwPattern, wlPattern)
    {
      rows := map id | id in rows :: BatchRow(rows[id], id, fromId, toId, kwPattern, wlPattern);
    }
  }

  /** `SET is_keyword_blocked = new_blocked` for the rows of the batch. */
  function BatchRow(row: Row, id: int, fromId: int, toId: int, kw: Option<string>, wl: Option<string>): Row {
    if fromId < id <= toId then row.(blocked := NewBlocked(row, kw, wl)) else row
  }

  /** One of the first `n` batches covers the row. */
  ghost predicate Covered(id: int, n: nat) {
    exists j: nat :: j < n && InBatch(id, j)
  }

  predicate InBatch(id: int, j: nat) { From(j) < id <= From(j + 1) }

  /** The table with the flags of the rows in the first `n` batches recomputed and everything else as it was. */
  ghost predicate SweptBy(before: map<int, Row>, after: map<int, Row>, n: nat,
                          keywords: seq<string>, whitelist: seq<string>) {
    && after.Keys == before.Keys
    && forall id :: id in before ==>
         after[id] == if Covered(id, n) then Refreshed(before[id], keywords, whitelist) else before[id]
  }

  lemma SweptFurther(t0: map<int, Row>, t1: map<int, Row>, t2: map<int, Row>, n: nat,
                     keywords: seq<string>, whitelist: seq<string>)
    requires SweptBy(t0, t1, n, keywords, whitelist)
    requires t2.Keys == t1.Keys
    requires forall id :: id in t2 ==>
      t2[id] == BatchRow(t1[id], id, From(n), From(n + 1), Pattern(keywords), Pattern(whitelist))
    ensures SweptBy(t0, t2, n + 1, keywords, whitelist)
  {
    hide NewBlocked, Pattern, From, Covered;
    forall id | id in t0
      ensures t2[id] == if Covered(id, n + 1) then Refreshed(t0[id], keywords, whitelist) else t0[id]
    {
      CoveredNext(id, n);
      NewBlockedMeans(t1[id], keywords, whitelist);
      RefreshedAgain(t0[id], keywords, whitelist);
    }
  }

  lemma CoveredNext(id: int, n: nat)
    ensures Covered(id, n + 1) <==> Covered(id, n) || InBatch(id, n)
  {
    hide InBatch;
  }

  lemma RefreshedAgain(row: Row, keywords: seq<string>, whitelist: seq<string>)
    ensures ShouldBlock(Refreshed(row, keywords, whitelist), keywords, whitelist) == ShouldBlock(row, keywords, whitelist)
  {
    hide ContainsAny, Lower;
  }

  /** The batches tile: whatever is positive and not above `from_id` has been covered, though the ids
      have wrapped around any number of times. */
  lemma {:induction false} Tiled(id: int, n: nat)
    requires 0 < id <= From(n)
    ensures Covered(id, n)
    decreases n
  {
    if From(n - 1) < id {
      assert InBatch(id, n - 1);
    } else {
      Tiled(id, n - 1);
      CoveredNext(id, n - 1);
    }
  }

  /** `recompute_keyword_blocked`. `maxOk` says whether the first query succeeds, `replies` how the database
      answers the batches, and `lifetime` how many batches the process lives to see answered. */
  method RecomputeKeywordBlocked(table: MediaTable, keywords: seq<string>, whitelist: seq<string>,
                                 maxOk: bool, replies: nat -> Reply, lifetime: nat)
    returns (r: Outcome, ghost batches: nat)
    requires table.Valid()
    modifies table
    ensures SweptBy(old(table.rows), table.rows, batches, keywords, whitelist)
    ensures if !maxOk then r == Failed && batches == 0
            else if old(table.rows) == map[] then r == Done && batches == 0
            else EndsAs(old(table.rows), replies, lifetime, r, batches)
    // a sweep that reports success has converged every row with a positive id
    ensures r == Done ==>
      forall id :: id in table.rows && 0 < id ==> table.rows[id] == Refreshed(old(table.rows)[id], keywords, whitelist)
    // undisturbed it succeeds as soon as `from_id` has reached the largest id
    ensures maxOk && (forall n: nat :: replies(n) == Reply(true, true, false)) ==>
      r == if old(table.rows) == map[] || exists n: nat :: 1 <= n <= lifetime && Reached(old(table.rows), n)
           then Done else Unfinished
  {
    hide From, Refreshed, SweptBy, Pattern, ShouldBlock;
    batches := 0;
    NothingCovered(table.rows, keywords, whitelist);
    var kwPattern := BuildRegexPattern(keywords);
    var wlPattern := BuildRegexPattern(whitelist);
    if !maxOk {
      return Failed, 0;
    }
    var max := table.MaxId();
    if max.None? {
      return Done, 0;
    }
    var maxId := max.value;
    Start();
    var fromId, batch: nat := 0, 0;
    while batch < lifetime
      invariant batch <= lifetime && fromId == From(batch) && batches == batch
      invariant maxId in old(table.rows) && forall id :: id in old(table.rows) ==> id <= maxId
      invariant forall n: nat :: 1 <= n <= batch ==> From(n) < maxId
      invariant forall j: nat :: j < batch ==> replies(j).ok && !replies(j).superseded
      invariant SweptBy(old(table.rows), table.rows, batch, keywords, whitelist)
    {
      Onwards(batch);
      var toId := Wrapped(fromId + BATCH_SIZE);
      var reply := replies(batch);
      if reply.ok || reply.applied {
        ghost var before := table.rows;
        table.UpdateBatch(fromId, toId, kwPattern, wlPattern);
        SweptFurther(old(table.rows), before, table.rows, batch, keywords, whitelist);
        batches := batch + 1;
      }
      if !reply.ok || reply.superseded {
        return Failed, batches;
      }
      fromId := toId;
      batch := batch + 1;
      if fromId >= maxId {
        AllCovered(old(table.rows), table.rows, batch, keywords, whitelist);
        return Done, batches;
      }
    }
    return Unfinished, batches;
  }

  /** The loop is still on after `n` batches: all of them succeeded, none was superseded, and the largest id has not been
      reached. */
  ghost predicate StillOn(rows: map<int, Row>, replies: nat -> Reply, n: nat) {
    && (forall j: nat :: j < n ==> replies(j).ok && !replies(j).superseded)
    && forall j: nat :: 1 <= j <= n ==> !Reached(rows, j)
  }

  /** How the loop ends, and after how many batches that took effect: at the first batch that reaches the largest
      id, at the first that fails or is superseded before that, or with the process. */
  ghost predicate EndsAs(rows: map<int, Row>, replies: nat -> Reply, lifetime: nat, r: Outcome, batches: nat) {
    match r
    case Done =>
      && 1 <= batches <= lifetime && Reached(rows, batches) && StillOn(rows, replies, batches - 1)
      && replies(batches - 1).ok && !replies(batches - 1).superseded
    case Failed =>
      exists n: nat ::
        && n < lifetime && StillOn(rows, replies, n) && (!replies(n).ok || replies(n).superseded)
        && batches == n + if replies(n).ok || replies(n).applied then 1 else 0
    case Unfinished => StillOn(rows, replies, lifetime) && batches == lifetime
  }

  /** After `n` batches `from_id` has reached every id. */
  ghost predicate Reached(rows: map<int, Row>, n: nat) {
    forall id :: id in rows ==> id <= From(n)
  }

  lemma Start()
    ensures From(0) == 0
  {}

  lemma Onwards(n: nat)
    ensures From(n + 1) == Wrapped(From(n) + BATCH_SIZE)
  {}

  lemma NothingCovered(rows: map<int, Row>, keywords: seq<string>, whitelist: seq<string>)
    ensures SweptBy(rows, rows, 0, keywords, whitelist)
  {}

  lemma AllCovered(before: map<int, Row>, after: map<int, Row>, n: nat, keywords: seq<string>, whitelist: seq<string>)
    requires SweptBy(before, after, n, keywords, whitelist) && Reached(before, n)
    ensures forall id :: id in after && 0 < id ==> after[id] == Refreshed(before[id], keywords, whitelist)
  {
    hide From, Covered, Refreshed;
    forall id | id in after && 0 < id ensures Covered(id, n) {
      Tiled(id, n);
    }
  }

  // ---------------------------------------------------------------- when it ends

  /** Some batch gets `from_id` to the largest id. */
  ghost predicate Ends(maxId: int) {
    exists n: nat :: n >= 1 && From(n) >= maxId
  }

  /** Before that the sum does not fit 32 bits. */
  ghost predicate Overflows(maxId: int) {
    exists n: nat :: From(n) + BATCH_SIZE > MAX_ID && forall j: nat :: 1 <= j <= n ==> From(j) < maxId
  }

  lemma {:induction false} FromIs(n: nat) returns (wraps: nat)
    ensures From(n) == BATCH_SIZE * n - wraps * 0x1_0000_0000
  {
    if n == 0 {
      wraps := 0;
    } else {
      wraps := FromIs(n - 1);
      if From(n - 1) + BATCH_SIZE > MAX_ID { wraps := wraps + 1; }
    }
  }

  /** An undisturbed sweep ends, in a release build, if and only if the largest id is none of the three
      largest there are: `from_id` steps by 500 and wraps at 2^32, and so meets every multiple of four. */
  lemma EndsIff(maxId: int)
    ensures Ends(maxId) <==> maxId <= 2147483644
  {
    hide From;
    if maxId <= 2147483644 {
      assert 500 * 957777707 == 2147483644 + 111 * 0x1_0000_0000;
      var n: nat :| 500 * n == 2147483644 + 111 * 0x1_0000_0000;
      var wraps := FromIs(n);
      assert From(n) == 2147483644;
    }
  }

  lemma {:induction false} FirstPass(n: nat)
    requires n <= MAX_ID / BATCH_SIZE
    ensures From(n) == BATCH_SIZE * n
    decreases n
  {
    if n > 0 { FirstPass(n - 1); }
  }

  /** The sum does not fit 32 bits before the sweep has ended, which a checked build panics on, if and only if
      an id lies behind the last full batch. */
  lemma OverflowsIff(maxId: int)
    ensures Overflows(maxId) <==> maxId > 2147483500
  {
    hide From;
    var last: nat := MAX_ID / BATCH_SIZE;
    assert last == 4294967;
    FirstPass(last);
    if maxId > 2147483500 {
      forall j: nat | 1 <= j <= last ensures From(j) < maxId { FirstPass(j); }
      assert From(last) + BATCH_SIZE > MAX_ID;
    }
    forall n: nat | From(n) + BATCH_SIZE > MAX_ID ensures n >= last {
      if n < last { FirstPass(n); }
    }
  }

  /** A row that no sweep gets to the end of. */
  lemma LargestNeverReached(n: nat)
    ensures !Reached(map[2147483645 := Row("", None, false, false)], n)
  {
    assert From(n) <= 2147483644;
    var rows := map[2147483645 := Row("", None, false, false)];
    assert 2147483645 in rows;
  }

  /** A row on which a checked build panics and a release build ends. */
  lemma OverflowAt2147483501()
    ensures Overflows(2147483501) && Ends(2147483501)
  {
    hide From, Overflows, Ends;
    var id := 2147483501;
    OverflowsIff(id);
    EndsIff(id);
  }

  // ---------------------------------------------------------------- the in-memory filter

  datatype KeywordFilterCache = KeywordFilterCache(keywords: seq<string>, whitelist: seq<string>)

  /** `matches_list`. */
  predicate MatchesList(keywords: seq<string>, whitelist: seq<string>, text: string) {
    && text != [] && keywords != []
    && !ContainsAny(Lower(text), whitelist)
    && ContainsAny(Lower(text), keywords)
  }

  /** `matches_blocked_media_text`. */
  predicate MatchesBlockedMediaText(kf: KeywordFilterCache, title: string, description: Option<string>) {
    || MatchesList(kf.keywords, kf.whitelist, title)
    || (description.Some? && description.value != [] && MatchesList(kf.keywords, kf.whitelist, description.value))
  }

  /** `should_hide_media`. */
  predicate ShouldHideMedia(kf: KeywordFilterCache, isBlocked: bool, override: bool, posterFlagged: bool, row: Row) {
    || isBlocked || posterFlagged
    || (row.blocked && !override)
    || (!override && MatchesBlockedMediaText(kf, row.title, row.description))
  }

  /** The text is there, matches a keyword and no whitelist phrase. */
  ghost predicate Hit(text: string, keywords: seq<string>, whitelist: seq<string>) {
    text != [] && ContainsAny(text, keywords) && !ContainsAny(text, whitelist)
  }

  /** One field is hit, while the other one is whitelisted. */
  ghost predicate SplitVerdict(row: Row, keywords: seq<string>, whitelist: seq<string>) {
    var ltitle, ldesc := Lower(row.title), Lower(Description(row));
    || (Hit(ltitle, keywords, whitelist) && ContainsAny(ldesc, whitelist))
    || (Hit(ldesc, keywords, whitelist) && ContainsAny(ltitle, whitelist))
  }

  /** There is no text, and an empty keyword, which the pattern finds in it. */
  predicate EmptyVerdict(row: Row, keywords: seq<string>, whitelist: seq<string>) {
    row.title == [] && Description(row) == [] && [] in keywords && [] !in whitelist
  }

  lemma EmptyText(terms: seq<string>)
    ensures ContainsAny([], terms) <==> [] in terms
  {
    if [] in terms {
      var k :| 0 <= k < |terms| && terms[k] == [];
      assert OccursAt([], terms[k], 0);
    }
  }

  lemma EmptyTerm(text: string, terms: seq<string>)
    requires [] in terms
    ensures ContainsAny(text, terms)
  {
    var k :| 0 <= k < |terms| && terms[k] == [];
    assert OccursAt(text, terms[k], 0);
  }

  lemma NothingContained(text: string)
    ensures !ContainsAny(text, [])
  {}

  lemma FilterHits(kf: KeywordFilterCache, row: Row)
    ensures MatchesBlockedMediaText(kf, row.title, row.description)
       <==> Hit(Lower(row.title), kf.keywords, kf.whitelist) || Hit(Lower(Description(row)), kf.keywords, kf.whitelist)
  {
    hide ContainsAny;
    NothingContained(Lower(row.title));
    NothingContained(Lower(Description(row)));
  }

  /** For every row and all lists, exactly when the in-memory filter and the sweep agree. On a row that is
      adult, which the sweep flags in any case: when the filter hits it as well. On any other row: unless one field is
      hit and the other whitelisted, for the sweep lets one whitelist hit anywhere clear the row while the filter
      judges title and description apart; or an empty keyword meets a row without text, which the filter
      passes over. */
  lemma FilterAgreesWithSweep(kf: KeywordFilterCache, row: Row)
    ensures (MatchesBlockedMediaText(kf, row.title, row.description) <==> ShouldBlock(row, kf.keywords, kf.whitelist))
       <==> if row.adult
            then Hit(Lower(row.title), kf.keywords, kf.whitelist) || Hit(Lower(Description(row)), kf.keywords, kf.whitelist)
            else !SplitVerdict(row, kf.keywords, kf.whitelist) && !EmptyVerdict(row, kf.keywords, kf.whitelist)
    ensures MatchesBlockedMediaText(kf, row.title, row.description) && !ShouldBlock(row, kf.keywords, kf.whitelist)
       <==> !row.adult && SplitVerdict(row, kf.keywords, kf.whitelist)
  {
    hide ContainsAny;
    FilterHits(kf, row);
    EmptyText(kf.keywords);
    EmptyText(kf.whitelist);
    if [] in kf.keywords {
      EmptyTerm(Lower(row.title), kf.keywords);
      EmptyTerm(Lower(Description(row)), kf.keywords);
    }
  }

  /** What is hidden: whatever is blocked or has a flagged poster; and unless overridden what the sweep flagged, or the
      text check blocks. After a completed sweep that check adds exactly the rows that are not adult and have a
      split verdict. */
  lemma SweptRowNeedsNoFilter(kf: KeywordFilterCache, row: Row, isBlocked: bool, override: bool, posterFlagged: bool)
    requires row == Refreshed(row, kf.keywords, kf.whitelist)
    ensures ShouldHideMedia(kf, isBlocked, override, posterFlagged, row)
      <==>
      || isBlocked || posterFlagged
      || (!override && (row.blocked || (!row.adult && SplitVerdict(row, kf.keywords, kf.whitelist))))
  {
    hide SplitVerdict;
    FilterAgreesWithSweep(kf, row);
  }

  /** Before it, too, each of the four reasons hides, and nothing else does. */
  lemma HiddenIff(kf: KeywordFilterCache, row: Row, isBlocked: bool, override: bool, posterFlagged: bool)
    ensures ShouldHideMedia(kf, isBlocked, override, posterFlagged, row)
      <==>
      || isBlocked || posterFlagged
      || (!override && (row.blocked || Hit(Lower(row.title), kf.keywords, kf.whitelist)
                                    || Hit(Lower(Description(row)), kf.keywords, kf.whitelist)))
  {
    hide Hit;
    FilterHits(kf, row);
  }

  /** A row on which they differ: the title has the keyword, the description is whitelisted. */
  lemma FilterDisagreesWithSweep()
    ensures var kf := KeywordFilterCache(["xx"], ["xxy"]);
      var row := Row("xx", Some("xxy"), false, false);
      MatchesBlockedMediaText(kf, row.title, row.description) && !ShouldBlock(row, kf.keywords, kf.whitelist)
  {
    var title, desc := "xx", "xxy";
    var keywords, whitelist := [title], [desc];
    ContainsItself(title);
    ContainsItself(desc);
    assert Contains(title, keywords[0]) && Contains(desc, whitelist[0]);
    assert !Contains(title, desc);
    assert Lower(title) == title && Lower(desc) == desc;
    assert forall k :: 0 <= k < |whitelist| ==> whitelist[k] == desc;
    assert SplitVerdict(Row(title, Some(desc), false, false), keywords, whitelist);
    FilterAgreesWithSweep(KeywordFilterCache(keywords, whitelist), Row(title, Some(desc), false, false));
  }

  lemma ContainsItself(s: string)
    ensures Contains(s, s)
  {
    assert OccursAt(s, s, 0);
  }
}
