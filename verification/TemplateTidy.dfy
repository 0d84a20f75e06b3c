/** Which trees the template parser of backend/src/template.rs makes: those that Template calls canonical, from
    any template whose tags and conditionals are closed. */
module TemplateTidy {
  import opened Basics
  import opened Template
  import opened Wrappers

  // ---------------------------------------------------------------- tidy templates

  /** Quotes and parentheses of a variable are closed, and no modifier is dropped. */
  predicate TidyVar(inner: string) {
    var parts := Split(inner, '|', OUTSIDE, "");
    |parts| <= MAX_MODIFIERS_CHAIN + 1 && Closed(parts[|parts| - 1], '|')
  }

  /** From `pos` on: every brace and conditional is closed, no `else`, `elif` or `/if` is astray, and
      variables are tidy. */
  predicate TidyBlock(b: string, pos: nat, inside: bool, depth: nat)
    requires pos <= |b|
    decreases |b| - pos, 0
  {
    if pos == |b| then !inside
    else if b[pos] != '{' then TidyBlock(b, RunEnd(b, pos), inside, depth)
    else match TagAt(b, pos)
      case None => false
      case Some(Tag(inner, next)) =>
        if IsStop(inner) then inside
        else if IsIf(inner) && depth < MAX_RECURSION_DEPTH then
          TidyIf(b, next, depth) && TidyBlock(b, IfAt(b, next, Trim(inner[3..]), depth).next, inside, depth)
        else (!IsIf(inner) && IsVar(inner) ==> TidyVar(inner)) && TidyBlock(b, next, inside, depth)
  }

  predicate TidyIf(b: string, pos: nat, depth: nat)
    requires pos <= |b|
    decreases |b| - pos, 1
  {
    var t := BlockAt(b, pos, true, depth + 1);
    var e := ElifsAt(b, t.next, depth);
    var f := ElseAt(b, e.next, depth);
    && TidyBlock(b, pos, true, depth + 1) && TidyElifs(b, t.next, depth) && TidyElse(b, e.next, depth)
    && TagAt(b, f.next).Some? && IsEndIf(TagAt(b, f.next).value.inner)
  }

  predicate TidyElifs(b: string, pos: nat, depth: nat)
    requires pos <= |b|
    decreases |b| - pos, 0
  {
    var tag := TagAt(b, pos);
    tag.Some? && IsElif(tag.value.inner) ==>
      && TidyBlock(b, tag.value.next, true, depth + 1)
      && TidyElifs(b, BlockAt(b, tag.value.next, true, depth + 1).next, depth)
  }

  predicate TidyElse(b: string, pos: nat, depth: nat)
    requires pos <= |b|
    decreases |b| - pos, 0
  {
    var tag := TagAt(b, pos);
    tag.Some? && IsElse(tag.value.inner) ==> TidyBlock(b, tag.value.next, true, depth + 1)
  }

  predicate Tidy(template: string) { TidyBlock(template, 0, false, 0) }

  // ---------------------------------------------------------------- trimming and lower case

  lemma {:induction false} TrimStartIs(s: string) returns (n: nat)
    ensures n <= |s| && TrimStart(s) == s[n..] && (n < |s| ==> !Space(s[n])) && forall i :: 0 <= i < n ==> Space(s[i])
    decreases s
  {
    if s != "" && Space(s[0]) {
      n := TrimStartIs(s[1..]);
      assert s[1..][n..] == s[n + 1..];
      assert forall i :: 0 < i < n + 1 ==> s[i] == s[1..][i - 1];
      n := n + 1;
    } else {
      n := 0;
    }
  }

  lemma {:induction false} TrimEndIs(s: string) returns (n: nat)
    ensures n <= |s| && TrimEnd(s) == s[..n] && (n > 0 ==> !Space(s[n - 1])) && forall i :: n <= i < |s| ==> Space(s[i])
    decreases s
  {
    if s != "" && Space(s[|s| - 1]) {
      n := TrimEndIs(s[..|s| - 1]);
      assert s[..|s| - 1][..n] == s[..n];
    } else {
      n := |s|;
    }
  }

  predicate AllSpace(s: string) { forall c :: c in s ==> Space(c) }

  /** What is trimmed off is space, and what is left is trimmed. */
  lemma TrimIs(s: string) returns (before: string, after: string)
    ensures s == before + Trim(s) + after && AllSpace(before) && AllSpace(after) && Trimmed(Trim(s))
    ensures s != "" && !Space(s[0]) ==> before == "" && Trim(s) != ""
    ensures s != "" && !Space(s[|s| - 1]) ==> after == "" && Trim(s) != ""
  {
    var m := TrimStartIs(s);
    var t := TrimStart(s);
    var n := TrimEndIs(t);
    before, after := s[..m], t[n..];
    assert s == before + t && t == t[..n] + after;
  }

  /** A function of texts that goes through concatenation and sees neither spaces nor the case of letters. */
  function Braces(s: string): string {
    if s == "" then "" else Brace(s[0]) + Braces(s[1..])
  }

  function Brace(c: char): string { if c == '{' || c == '}' then [c] else "" }

  lemma {:induction false} BracesCat(s: string, t: string)
    ensures Braces(s + t) == Braces(s) + Braces(t)
    decreases s
  {
    hide Brace;
    if s == "" {
      assert s + t == t && "" + Braces(t) == Braces(t);
    } else {
      assert (s + t)[1..] == s[1..] + t && (s + t)[0] == s[0];
      BracesCat(s[1..], t);
      assert Brace(s[0]) + (Braces(s[1..]) + Braces(t)) == (Brace(s[0]) + Braces(s[1..])) + Braces(t);
    }
  }

  lemma {:induction false} NoBraces(s: string)
    requires '{' !in s && '}' !in s
    ensures Braces(s) == ""
    decreases s
  {
    if s != "" { NoBraces(s[1..]); }
  }

  lemma {:induction false} BracesLower(s: string)
    ensures Braces(Lower(s)) == Braces(s)
    decreases s
  {
    if s != "" {
      BracesLower(s[1..]);
      assert Lower(s) == [LowerChar(s[0])] + Lower(s[1..]);
      assert Lower(s)[1..] == Lower(s[1..]);
    }
  }

  lemma BracesTrim(s: string)
    ensures Braces(Trim(s)) == Braces(s)
  {
    hide Trim, Braces;
    var before, after := TrimIs(s);
    NoBraces(before);
    NoBraces(after);
    BracesCat(before + Trim(s), after);
    BracesCat(before, Trim(s));
  }

  lemma {:induction false} NestedBraces(s: string, depth: nat)
    requires depth >= 1
    ensures Nested(Braces(s), depth) <==> Nested(s, depth)
    decreases s
  {
    if s != "" {
      var d := if s[0] == '{' then depth + 1 else if s[0] == '}' then depth - 1 else depth;
      if d >= 1 { NestedBraces(s[1..], d); }
      if s[0] == '{' || s[0] == '}' {
        assert Braces(s) == [s[0]] + Braces(s[1..]);
        assert Braces(s)[1..] == Braces(s[1..]);
      } else {
        assert Braces(s) == Braces(s[1..]);
      }
    }
  }

  lemma NestedTrim(s: string)
    ensures Nested(Trim(s), 1) <==> Nested(s, 1)
  {
    hide Trim, Nested, Braces;
    BracesTrim(s);
    NestedBraces(s, 1);
    NestedBraces(Trim(s), 1);
  }

  lemma {:induction false} CloseNested(b: string, i: nat, depth: nat)
    requires i <= |b| && depth >= 1 && CloseFrom(b, i, depth).Some?
    ensures Nested(b[i..CloseFrom(b, i, depth).value], depth)
    decreases |b| - i
  {
    var r := CloseFrom(b, i, depth).value;
    if i < r {
      assert b[i..r][1..] == b[i + 1..r];
      CloseNested(b, i + 1, if b[i] == '{' then depth + 1 else if b[i] == '}' then depth - 1 else depth);
    }
  }

  /** A tag is what stands in balanced braces, trimmed. */
  lemma TagIs(b: string, pos: nat)
    requires pos <= |b| && TagAt(b, pos).Some?
    ensures var (inner, next) := (TagAt(b, pos).value.inner, TagAt(b, pos).value.next);
      && next >= pos + 2 && b[pos..next] == Braced(b[pos + 1..next - 1]) && Nested(b[pos + 1..next - 1], 1)
      && inner == Trim(b[pos + 1..next - 1]) && Trimmed(inner) && Nested(inner, 1)
  {
    hide Nested, CloseFrom, Trim;
    CloseNested(b, pos + 1, 1);
    var raw := b[pos + 1..TagAt(b, pos).value.next - 1];
    NestedTrim(raw);
    var _, _ := TrimIs(raw);
    CloseIs(b, pos + 1, 1);
  }

  lemma {:induction false} CloseIs(b: string, i: nat, depth: nat)
    requires i <= |b| && depth >= 1 && CloseFrom(b, i, depth).Some?
    ensures b[CloseFrom(b, i, depth).value] == '}'
    decreases |b| - i
  {
    if b[i] == '{' { CloseIs(b, i + 1, depth + 1); }
    else if b[i] != '}' { CloseIs(b, i + 1, depth); }
    else if depth > 1 { CloseIs(b, i + 1, depth - 1); }
  }

  /** The condition of a tag, behind its word. */
  lemma ConditionCanon(inner: string, n: nat, word: string)
    requires HasPrefix(inner, n, word) && '{' !in word && '}' !in word && Trimmed(inner) && Nested(inner, 1)
    ensures CanonCondition(Trim(inner[n..]))
  {
    hide Trim, Nested, Braces;
    var (front, rest) := (inner[..n], inner[n..]);
    assert inner == front + rest;
    BracesCat(front, rest);
    BracesLower(front);
    NoBraces(word);
    NestedBraces(inner, 1);
    NestedBraces(rest, 1);
    assert "" + Braces(rest) == Braces(rest);
    NestedTrim(rest);
    var _, _ := TrimIs(rest);
    assert rest[|rest| - 1] == inner[|inner| - 1];
  }

  // ---------------------------------------------------------------- variables

  lemma {:induction false} ScanCat(s: string, t: string, sc: Scanner)
    ensures Scan(s + t, '|', sc) ==
      match Scan(s, '|', sc)
      case None => None
      case Some(mid) => Scan(t, '|', mid)
    decreases s
  {
    if s == "" {
      assert s + t == t;
    } else {
      assert (s + t)[1..] == s[1..] + t;
      if !Splits(sc, s[0], '|') { ScanCat(s[1..], t, Advance(sc, s[0])); }
    }
  }

  lemma {:induction false} ScanSpace(s: string, sc: Scanner)
    requires AllSpace(s)
    ensures Scan(s, '|', sc) == Some(sc)
    decreases s
  {
    if s != "" {
      assert s[0] in s && forall c :: c in s[1..] ==> c in s;
      ScanSpace(s[1..], sc);
    }
  }

  lemma {:induction false} ScanLower(s: string, sc: Scanner)
    ensures Scan(Lower(s), '|', sc) == Scan(s, '|', sc)
    decreases s
  {
    if s != "" {
      assert Lower(s) == [LowerChar(s[0])] + Lower(s[1..]);
      assert Lower(s)[1..] == Lower(s[1..]);
      ScanLower(s[1..], Advance(sc, s[0]));
    }
  }

  lemma ScanTrim(s: string, sc: Scanner)
    ensures Scan(Trim(s), '|', sc) == Scan(s, '|', sc)
  {
    hide Trim, Scan;
    var before, after := TrimIs(s);
    ScanCat(before + Trim(s), after, sc);
    ScanCat(before, Trim(s), sc);
    ScanSpace(before, sc);
    var mid := Scan(Trim(s), '|', sc);
    if mid.Some? { ScanSpace(after, mid.value); }
  }

  /** The two texts have the same braces and do the same to the scanner. */
  ghost predicate Like(s: string, t: string) {
    Braces(s) == Braces(t) && forall sc :: Scan(s, '|', sc) == Scan(t, '|', sc)
  }

  lemma LikeTrim(s: string)
    ensures Like(Trim(s), s)
  {
    hide Trim, Scan, Braces;
    BracesTrim(s);
    forall sc ensures Scan(Trim(s), '|', sc) == Scan(s, '|', sc) { ScanTrim(s, sc); }
  }

  lemma LikeLower(s: string)
    ensures Like(Lower(s), s)
  {
    hide Scan, Braces;
    BracesLower(s);
    forall sc ensures Scan(Lower(s), '|', sc) == Scan(s, '|', sc) { ScanLower(s, sc); }
  }

  lemma LikeCat(s: string, s': string, t: string, t': string)
    requires Like(s, s') && Like(t, t')
    ensures Like(s + t, s' + t')
  {
    hide Scan, Braces;
    BracesCat(s, t);
    BracesCat(s', t');
    forall sc ensures Scan(s + t, '|', sc) == Scan(s' + t', '|', sc) {
      ScanCat(s, t, sc);
      ScanCat(s', t', sc);
    }
  }

  lemma LikeSame(s: string)
    ensures Like(s, s)
  {}

  lemma {:induction false} LowerTwice(s: string)
    ensures Lower(Lower(s)) == Lower(s)
  {
    assert forall i :: 0 <= i < |s| ==> Lower(Lower(s))[i] == Lower(s)[i];
  }

  lemma LowerKeeps(s: string)
    ensures Trimmed(s) ==> Trimmed(Lower(s))
    ensures '(' in Lower(s) <==> '(' in s
    ensures s != "" ==> (Lower(s)[|s| - 1] == ')' <==> s[|s| - 1] == ')')
  {
    hide Lower;
    LowerParen(s);
    if s != "" { assert Lower(s)[0] == LowerChar(s[0]) && Lower(s)[|s| - 1] == LowerChar(s[|s| - 1]); }
  }

  lemma LowerParen(s: string)
    ensures '(' in Lower(s) <==> '(' in s
  {
    hide Lower;
    if '(' in s {
      var i :| 0 <= i < |s| && s[i] == '(';
      assert Lower(s)[i] == LowerChar(s[i]);
    } else {
      forall i | 0 <= i < |s| ensures Lower(s)[i] != '(' {
        assert Lower(s)[i] == LowerChar(s[i]);
      }
    }
  }

  lemma TrimKeeps(s: string, c: char)
    ensures Trimmed(Trim(s)) && (c in Trim(s) ==> c in s)
  {
    hide Trim;
    var before, after := TrimIs(s);
  }

  lemma ModifierCanon(text: string)
    requires Closed(text, '|')
    ensures CanonModifier(ParseModifier(text)) && Like(PrintModifier(ParseModifier(text)), text)
  {
    hide Trim, Scan, Lower, Braces, IndexOf;
    ModifierLike(text);
    var m := ParseModifier(text);
    var part := Trim(text);
    TrimKeeps(text, '(');
    var paren := IndexOf(part, '(');
    if m.arg.Some? {
      var name := Trim(part[..paren.value]);
      TrimKeeps(part[..paren.value], '(');
      TrimKeeps(part[paren.value + 1..|part| - 1], '(');
      LowerTwice(name);
      LowerKeeps(name);
    } else {
      LowerTwice(part);
      LowerKeeps(part);
    }
  }

  lemma ModifierLike(text: string)
    ensures Like(PrintModifier(ParseModifier(text)), text)
  {
    hide Trim, Scan, Lower, Braces, Like, IndexOf;
    var part := Trim(text);
    var paren := IndexOf(part, '(');
    LikeTrim(text);
    if paren.Some? && part[|part| - 1] == ')' {
      var (name, arg) := (part[..paren.value], part[paren.value + 1..|part| - 1]);
      assert part == name + ("(" + arg + ")");
      LikeTrim(name);
      LikeLower(Trim(name));
      LikeTrim(arg);
      LikeSame("(");
      LikeSame(")");
      LikeCat("(", "(", Trim(arg), arg);
      LikeCat("(" + Trim(arg), "(" + arg, ")", ")");
      LikeChain(Lower(Trim(name)), Trim(name), name);
      LikeCat(Lower(Trim(name)), name, "(" + Trim(arg) + ")", "(" + arg + ")");
      LikeChain(PrintModifier(ParseModifier(text)), part, text);
    } else {
      LikeLower(part);
      assert PrintModifier(ParseModifier(text)) == Lower(part);
      LikeChain(Lower(part), part, text);
    }
  }

  lemma LikeChain(s: string, t: string, u: string)
    requires Like(s, t) && Like(t, u)
    ensures Like(s, u)
  {}

  /** The modifiers of closed parts are canonical, and printed they are like the parts. */
  lemma {:induction false} ModifiersCanon(path: string, part: string, parts: seq<string>, room: nat)
    requires |parts| <= room && Like(path, part) && forall t :: t in parts ==> Closed(t, '|')
    ensures var ms := ParseModifiers(parts, room);
      |ms| == |parts| && (forall m :: m in ms ==> CanonModifier(m))
      && Like(PrintVar(path, ms), Join([part] + parts, '|'))
    decreases |parts|
  {
    hide Trim, Scan, Lower, Braces, Like, CanonModifier, ParseModifier, PrintModifier, Closed;
    var ms := ParseModifiers(parts, room);
    if parts == [] {
      assert [part] + parts == [part];
      assert path + PrintModifiers(ms) == path;
    } else {
      ModifierCanon(parts[0]);
      var m := PrintModifier(ms[0]);
      ModifiersCanon(m, parts[0], parts[1..], room - 1);
      assert [parts[0]] + parts[1..] == parts && ([part] + parts)[1..] == parts;
      LikeSame("|");
      LikeCat(path, part, "|", "|");
      LikeCat(path + "|", part + "|", PrintVar(m, ms[1..]), Join(parts, '|'));
      assert path + "|" + PrintVar(m, ms[1..]) == PrintVar(path, ms);
      assert ['|'] == "|";
    }
  }

  /** The path begins the tag, and nothing else but modifiers follows. */
  lemma PathIs(inner: string)
    requires IsVar(inner) && Trimmed(inner)
    ensures var parts := Split(inner, '|', OUTSIDE, ""); var path := Trim(parts[0]);
      && path != "" && path <= inner && Trimmed(path) && (|parts| == 1 ==> path == inner)
  {
    hide Trim, Split;
    var parts := Split(inner, '|', OUTSIDE, "");
    SplitKeeps(inner, '|', OUTSIDE, "");
    assert "" + inner == inner;
    var before, after := TrimIs(parts[0]);
    assert parts[0] != "" && parts[0][0] == inner[0];
    if |parts| == 1 { TrimTrimmed(inner); }
  }

  lemma IfPrinted(inner: string, path: string, mods: string)
    requires path != "" && path <= inner && Trimmed(path) && (mods == "" || mods[0] == '|')
    requires !IsIf(inner)
    ensures !IsIf(path + mods)
  {
    hide Lower;
    PrefixPrinted(inner, path, mods, 3, "if ");
  }

  /** Trimming the path does not make a tag of it, word by word. */
  lemma PrefixPrinted(inner: string, path: string, mods: string, n: nat, word: string)
    requires path != "" && path <= inner && Trimmed(path) && (mods == "" || mods[0] == '|')
    requires |word| == n > 0 && word[n - 1] == ' ' && '|' !in word && !HasPrefix(inner, n, word)
    ensures !HasPrefix(path + mods, n, word)
  {
    var printed := path + mods;
    if |printed| > n {
      var start := Lower(printed[..n]);
      if |path| < n {
        assert start[|path|] == LowerChar(printed[|path|]) == '|';
        assert word[|path|] in word;
      } else if |path| == n {
        assert start[n - 1] == LowerChar(path[n - 1]) != ' ';
      } else {
        assert printed[..n] == inner[..n];
      }
    }
  }

  lemma ElsePrinted(inner: string, path: string, mods: string)
    requires path != "" && path <= inner && (mods == "" || mods[0] == '|') && (mods == "" ==> path == inner)
    requires NameStart(path[0]) && !IsElse(inner)
    ensures !IsElse(path + mods) && !IsEndIf(path + mods)
  {
    var lower := Lower(path + mods);
    assert lower[0] == LowerChar(path[0]) && "/if"[0] == '/';
    if mods == "" {
      assert path + mods == inner;
    } else {
      assert lower[|path|] == LowerChar(mods[0]) == '|' && '|' in lower && '|' !in "else";
    }
  }

  lemma ModifiersStart(ms: seq<Modifier>)
    ensures if ms == [] then PrintModifiers(ms) == "" else PrintModifiers(ms) != "" && PrintModifiers(ms)[0] == '|'
  {}

  /** Path and modifiers of a tidy variable, each by itself. */
  lemma VarParts(inner: string)
    requires IsVar(inner) && Trimmed(inner) && TidyVar(inner)
    ensures var Var(path, ms) := VarOf(inner);
      && path != "" && path <= inner && Trimmed(path) && Closed(path, '|') && (ms == [] ==> path == inner)
      && |ms| <= MAX_MODIFIERS_CHAIN && (forall m :: m in ms ==> CanonModifier(m)) && Like(PrintVar(path, ms), inner)
  {
    hide Trim, Split, Like, Closed, CanonModifier, ParseModifiers, PrintVar, Join, IsVar;
    var parts := Split(inner, '|', OUTSIDE, "");
    var path := Trim(parts[0]);
    PartsClosed(inner);
    PathIs(inner);
    LikeTrim(parts[0]);
    ModifiersCanon(path, parts[0], parts[1..], MAX_MODIFIERS_CHAIN);
    assert [parts[0]] + parts[1..] == parts;
    SplitKeeps(inner, '|', OUTSIDE, "");
    assert "" + inner == inner;
    LikeClosed(path, parts[0]);
  }

  lemma VarCanon(inner: string)
    requires IsVar(inner) && Trimmed(inner) && Nested(inner, 1) && !IsIf(inner) && !IsStop(inner) && TidyVar(inner)
    ensures CanonNode(VarOf(inner), 0)
  {
    hide VarOf, TidyVar, Nested, Like, Closed, CanonModifier, PrintModifiers, IsIf, IsElif, IsElse, IsEndIf;
    VarParts(inner);
    var Var(path, ms) := VarOf(inner);
    LikeNested(PrintVar(path, ms), inner);
    ModifiersStart(ms);
    IfPrinted(inner, path, PrintModifiers(ms));
    ElifPrinted(inner, path, PrintModifiers(ms));
    ElsePrinted(inner, path, PrintModifiers(ms));
    assert path[0] == inner[0];
  }

  lemma ElifPrinted(inner: string, path: string, mods: string)
    requires path != "" && path <= inner && Trimmed(path) && (mods == "" || mods[0] == '|')
    requires !IsElif(inner)
    ensures !IsElif(path + mods)
  {
    hide Lower;
    PrefixPrinted(inner, path, mods, 5, "elif ");
  }

  lemma PartsClosed(inner: string)
    requires TidyVar(inner)
    ensures forall t :: t in Split(inner, '|', OUTSIDE, "") ==> Closed(t, '|')
  {
    hide Split;
    SplitCloses(inner, '|', OUTSIDE, "");
  }

  lemma LikeNested(s: string, t: string)
    requires Like(s, t) && Nested(t, 1)
    ensures Nested(s, 1)
  {
    hide Scan, Nested, Braces;
    NestedBraces(s, 1);
    NestedBraces(t, 1);
  }

  lemma LikeClosed(s: string, t: string)
    requires Like(s, t) && Closed(t, '|')
    ensures Closed(s, '|')
  {}

  // ---------------------------------------------------------------- blocks

  lemma CanonCons(n: Node, rest: seq<Node>, room: nat)
    requires CanonNode(n, room) && CanonNodes(rest, room) && (RunNode(n) && rest != [] ==> !RunNode(rest[0]))
    ensures CanonNodes([n] + rest, room)
  {
    assert ([n] + rest)[1..] == rest;
  }

  /** A block from an opening brace or the end does not begin with a run. */
  lemma NoRunFirst(b: string, pos: nat, inside: bool, depth: nat)
    requires pos <= |b| && TidyBlock(b, pos, inside, depth) && (pos == |b| || b[pos] == '{')
    ensures var nodes := BlockAt(b, pos, inside, depth).nodes; nodes != [] ==> !RunNode(nodes[0])
  {
    hide TagAt, IsStop, IsVar, IfAt, Trim, TidyIf, TidyVar, RunEnd, Nested, Lower;
    if pos < |b| && TagAt(b, pos).Some? {
      var Tag(inner, next) := TagAt(b, pos).value;
      TagIs(b, pos);
      assert b[pos..next][0] == '{';
      if IsIf(inner) && depth < MAX_RECURSION_DEPTH { IfIs(b, next, Trim(inner[3..]), depth); }
    }
  }

  lemma IfIs(b: string, pos: nat, condition: string, depth: nat)
    requires pos <= |b|
    ensures IfAt(b, pos, condition, depth).nodes[0].If?
  {
    hide BlockAt, ElifsAt, ElseAt, EndIfAt;
  }

  lemma {:induction false} RunIs(b: string, pos: nat)
    requires pos <= |b|
    ensures var r := RunEnd(b, pos); '{' !in b[pos..r] && (r == |b| || b[r] == '{')
    decreases |b| - pos
  {
    if pos < |b| && b[pos] != '{' {
      RunIs(b, pos + 1);
      assert b[pos..RunEnd(b, pos)] == [b[pos]] + b[pos + 1..RunEnd(b, pos)];
    }
  }

  /** From a tidy template the parser makes canonical nodes. */
  lemma {:induction false} BlockCanon(b: string, pos: nat, inside: bool, depth: nat)
    requires pos <= |b| && depth <= MAX_RECURSION_DEPTH && TidyBlock(b, pos, inside, depth)
    ensures CanonNodes(BlockAt(b, pos, inside, depth).nodes, MAX_RECURSION_DEPTH - depth)
    decreases |b| - pos, 0
  {
    hide TagAt, IsStop, IsVar, IfAt, VarOf, Trim, RunEnd, CanonNode, CanonNodes, TidyIf, TidyVar, Nested, Lower;
    var room := MAX_RECURSION_DEPTH - depth;
    NothingCanon(room);
    if pos < |b| {
      if b[pos] != '{' {
        var end := RunEnd(b, pos);
        RunIs(b, pos);
        BlockCanon(b, end, inside, depth);
        NoRunFirst(b, end, inside, depth);
        RunCanon(b[pos..end], room);
        CanonCons(Text(b[pos..end]), BlockAt(b, end, inside, depth).nodes, room);
      } else {
        TagIs(b, pos);
        var Tag(inner, next) := TagAt(b, pos).value;
        if !IsStop(inner) {
          if IsIf(inner) && depth < MAX_RECURSION_DEPTH {
            var t := IfAt(b, next, Trim(inner[3..]), depth);
            IfCanon(b, next, inner, depth);
            BlockCanon(b, t.next, inside, depth);
            CanonCons(t.nodes[0], BlockAt(b, t.next, inside, depth).nodes, room);
          } else {
            BlockCanon(b, next, inside, depth);
            var node := if !IsIf(inner) && IsVar(inner) then VarOf(inner) else Text(b[pos..next]);
            if !IsIf(inner) && IsVar(inner) { VarNodeCanon(inner, room); }
            else { LiteralCanon(b[pos + 1..next - 1], b[pos..next], room); }
            CanonCons(node, BlockAt(b, next, inside, depth).nodes, room);
          }
        }
      }
    }
  }

  lemma NothingCanon(room: nat)
    ensures CanonNodes([], room) && CanonBranches([], room)
  {}

  lemma RunCanon(t: string, room: nat)
    requires t != "" && '{' !in t
    ensures CanonNode(Text(t), room)
  {}

  lemma LiteralCanon(raw: string, t: string, room: nat)
    requires t == Braced(raw) && Nested(raw, 1) && !IsStop(Trim(raw))
    requires if IsIf(Trim(raw)) then room == 0 else !IsVar(Trim(raw))
    ensures CanonNode(Text(t), room) && !RunNode(Text(t))
  {
    hide Trim, Nested, IsStop, IsIf, IsVar;
    assert t[1..|t| - 1] == raw;
  }

  lemma VarNodeCanon(inner: string, room: nat)
    requires IsVar(inner) && Trimmed(inner) && Nested(inner, 1) && !IsIf(inner) && !IsStop(inner) && TidyVar(inner)
    ensures CanonNode(VarOf(inner), room) && !RunNode(VarOf(inner))
  {
    hide CanonVar, TidyVar, Split, Nested, IsIf, IsStop, IsVar, ParseModifiers, Trim;
    VarCanon(inner);
  }

  lemma {:induction false} IfCanon(b: string, pos: nat, inner: string, depth: nat)
    requires pos <= |b| && depth < MAX_RECURSION_DEPTH && TidyIf(b, pos, depth)
    requires IsIf(inner) && Trimmed(inner) && Nested(inner, 1)
    ensures var n := IfAt(b, pos, Trim(inner[3..]), depth).nodes[0];
      CanonNode(n, MAX_RECURSION_DEPTH - depth) && !RunNode(n)
    decreases |b| - pos, 1
  {
    hide TagAt, IsElse, IsElif, BlockAt, ElifsAt, ElseAt, CanonNodes, CanonBranches, CanonCondition, TidyBlock, TidyElifs,
         TidyElse, Trim, Nested, Lower;
    var t := BlockAt(b, pos, true, depth + 1);
    var e := ElifsAt(b, t.next, depth);
    ConditionCanon(inner, 3, "if ");
    BlockCanon(b, pos, true, depth + 1);
    ElifsCanon(b, t.next, depth);
    ElseCanon(b, e.next, depth);
  }

  lemma {:induction false} ElseCanon(b: string, pos: nat, depth: nat)
    requires pos <= |b| && depth < MAX_RECURSION_DEPTH && TidyElse(b, pos, depth)
    ensures CanonNodes(ElseAt(b, pos, depth).nodes, MAX_RECURSION_DEPTH - depth - 1)
    decreases |b| - pos, 0
  {
    hide TagAt, IsElse, BlockAt, CanonNodes, TidyBlock;
    NothingCanon(MAX_RECURSION_DEPTH - depth - 1);
    var tag := TagAt(b, pos);
    if tag.Some? && IsElse(tag.value.inner) { BlockCanon(b, tag.value.next, true, depth + 1); }
  }

  lemma {:induction false} ElifsCanon(b: string, pos: nat, depth: nat)
    requires pos <= |b| && depth < MAX_RECURSION_DEPTH && TidyElifs(b, pos, depth)
    ensures CanonBranches(ElifsAt(b, pos, depth).list, MAX_RECURSION_DEPTH - depth - 1)
    decreases |b| - pos, 0
  {
    hide TagAt, BlockAt, CanonNodes, CanonBranches, CanonCondition, TidyBlock, Trim, Nested, Lower;
    var room := MAX_RECURSION_DEPTH - depth - 1;
    NothingCanon(room);
    var tag := TagAt(b, pos);
    if tag.Some? && IsElif(tag.value.inner) {
      var body := BlockAt(b, tag.value.next, true, depth + 1);
      TagIs(b, pos);
      ElifCondition(tag.value.inner);
      BlockCanon(b, tag.value.next, true, depth + 1);
      ElifsCanon(b, body.next, depth);
      BranchCons(Branch(Trim(tag.value.inner[5..]), body.nodes), ElifsAt(b, body.next, depth).list, room);
    }
  }

  lemma ElifCondition(inner: string)
    requires IsElif(inner) && Trimmed(inner) && Nested(inner, 1)
    ensures CanonCondition(Trim(inner[5..]))
  {
    hide Trim, Nested, Lower, CanonCondition;
    ConditionCanon(inner, 5, "elif ");
  }

  lemma BranchCons(e: Branch, rest: seq<Branch>, room: nat)
    requires CanonCondition(e.condition) && CanonNodes(e.body, room) && CanonBranches(rest, room)
    ensures CanonBranches([e] + rest, room)
  {
    hide CanonNodes, CanonCondition;
    assert ([e] + rest)[1..] == rest;
  }

  lemma ParseCanon(template: string)
    requires Tidy(template)
    ensures CanonNodes(Parse(template), MAX_RECURSION_DEPTH)
  {
    hide CanonNodes, BlockAt, TidyBlock;
    BlockCanon(template, 0, false, 0);
  }

  /** So printing a parsed template gives a normal form of it. */
  lemma PrintedAgain(template: string)
    requires Tidy(template)
    ensures Parse(PrintNodes(Parse(template))) == Parse(template)
  {
    hide CanonNodes, PrintNodes, Parse, Tidy;
    ParseCanon(template);
    ParsePrinted(Parse(template));
  }

  // ---------------------------------------------------------------- and every canonical tree from some

  lemma VarTidy(path: string, ms: seq<Modifier>)
    requires CanonVar(path, ms)
    ensures TidyVar(PrintVar(path, ms))
  {
    hide Closed, CanonModifier, IsStop, IsIf, Nested, Join, Split, PrintModifiers, Texts;
    var parts := [path] + Texts(ms);
    TextsClosed(ms);
    JoinTexts(path, ms);
    forall p | p in parts ensures Closed(p, '|') {
      assert p == path || p in Texts(ms);
    }
    ClosedScans(parts[|parts| - 1]);
    SplitJoined(parts, '|');
  }

  lemma TextTidy(b: string, pos: nat, t: string, inside: bool, depth: nat)
    requires At(b, pos, t) && depth <= MAX_RECURSION_DEPTH
    requires Run(t) || Literal(t, MAX_RECURSION_DEPTH - depth)
    requires Run(t) ==> pos + |t| == |b| || b[pos + |t|] == '{'
    ensures TidyBlock(b, pos, inside, depth) == TidyBlock(b, pos + |t|, inside, depth)
  {
    hide TagAt, IsStop, IsIf, IsVar, TidyIf, TidyVar, Nested, Trim, RunEnd;
    assert b[pos..pos + |t|] == t;
    assert b[pos] == t[0];
    if Run(t) {
      RunBack(b, pos, t);
    } else {
      TagBack(b, pos, t[1..|t| - 1]);
    }
  }

  lemma VarNodeTidy(b: string, pos: nat, path: string, ms: seq<Modifier>, inside: bool, depth: nat)
    requires CanonVar(path, ms) && At(b, pos, Braced(PrintVar(path, ms)))
    ensures TidyBlock(b, pos, inside, depth) == TidyBlock(b, pos + |Braced(PrintVar(path, ms))|, inside, depth)
  {
    hide TagAt, IsStop, IsIf, IsVar, TidyIf, TidyVar, Nested, Trim, RunEnd, PrintVar, CanonVar, Braced;
    VarBack(path, ms);
    VarTidy(path, ms);
    VarIsNoTag(path, ms);
    TagBack(b, pos, PrintVar(path, ms));
  }

  lemma LeafTidy(b: string, pos: nat, n: Node, inside: bool, depth: nat)
    requires !n.If? && At(b, pos, PrintNode(n)) && depth <= MAX_RECURSION_DEPTH
    requires CanonNode(n, MAX_RECURSION_DEPTH - depth)
    requires RunNode(n) ==> pos + |PrintNode(n)| == |b| || b[pos + |PrintNode(n)|] == '{'
    ensures TidyBlock(b, pos, inside, depth) == TidyBlock(b, pos + |PrintNode(n)|, inside, depth)
  {
    hide TidyBlock, At, Run, Literal, CanonVar, PrintVar, Braced;
    match n
    case Text(t) => TextTidy(b, pos, t, inside, depth);
    case Var(path, ms) => VarNodeTidy(b, pos, path, ms, inside, depth);
  }

  /** A block inside a conditional ends at a token of it, any other at the end. */
  ghost predicate EndsTidily(b: string, pos: nat, inside: bool) {
    if inside then pos < |b| && TagAt(b, pos).Some? && IsStop(TagAt(b, pos).value.inner) else pos == |b|
  }

  lemma EmptyTidy(b: string, pos: nat, inside: bool, depth: nat)
    requires pos <= |b| && EndsTidily(b, pos, inside)
    ensures TidyBlock(b, pos, inside, depth)
  {
    hide IsStop, IsIf, IsVar, TidyIf, TidyVar, CloseFrom, Trim, RunEnd;
  }

  lemma TidilyEnds(b: string, pos: nat, inside: bool)
    requires EndsTidily(b, pos, inside)
    ensures Ends(b, pos, inside)
  {}

  lemma {:induction false} BlockTidy(b: string, pos: nat, nodes: seq<Node>, inside: bool, depth: nat)
    requires depth <= MAX_RECURSION_DEPTH && CanonNodes(nodes, MAX_RECURSION_DEPTH - depth)
    requires At(b, pos, PrintNodes(nodes)) && EndsTidily(b, pos + |PrintNodes(nodes)|, inside)
    ensures TidyBlock(b, pos, inside, depth)
    decreases nodes, 0
  {
    hide Ends, EndsTidily, TidyBlock, PrintNode, CanonNode, RunNode;
    if nodes == [] {
      EmptyTidy(b, pos, inside, depth);
    } else {
      var n, rest := nodes[0], nodes[1..];
      AtSplit(b, pos, PrintNode(n), PrintNodes(rest));
      var next := pos + |PrintNode(n)|;
      BlockTidy(b, next, rest, inside, depth);
      if n.If? {
        IfTidy(b, pos, n, inside, depth);
      } else {
        if RunNode(n) {
          TidilyEnds(b, pos + |PrintNodes(nodes)|, inside);
          RunFollowed(b, next, rest, MAX_RECURSION_DEPTH - depth, inside);
        }
        LeafTidy(b, pos, n, inside, depth);
      }
    }
  }

  lemma {:induction false} IfTidy(b: string, pos: nat, n: Node, inside: bool, depth: nat)
    requires n.If? && depth <= MAX_RECURSION_DEPTH && CanonNode(n, MAX_RECURSION_DEPTH - depth)
    requires At(b, pos, PrintNode(n))
    ensures TidyBlock(b, pos, inside, depth) == TidyBlock(b, pos + |PrintNode(n)|, inside, depth)
    decreases n, 1
  {
    hide TagAt, IsStop, IsIf, IsVar, IfAt, TidyIf, TidyVar, CanonNodes, CanonBranches, PrintBranches, Trim;
    var open := Braced("if " + n.condition);
    IfWord(n.condition);
    AtSplit(b, pos, open, PrintBranches(n));
    TagBack(b, pos, "if " + n.condition);
    BranchesBack(b, pos + |open|, n, depth);
    BranchesTidy(b, pos + |open|, n, depth);
  }

  lemma {:induction false} BranchesTidy(b: string, pos: nat, n: Node, depth: nat)
    requires n.If? && depth < MAX_RECURSION_DEPTH && CanonNode(n, MAX_RECURSION_DEPTH - depth)
    requires At(b, pos, PrintBranches(n))
    ensures TidyIf(b, pos, depth)
    decreases n, 0
  {
    hide TagAt, IsElse, IsEndIf, BlockAt, ElifsAt, ElseAt, TidyBlock, TidyElifs, TidyElse, CanonNodes, CanonBranches,
         PrintBranches, PrintNodes, PrintElifs, PrintElse, Braced, Ends, EndsTidily, ClosesBranches, At;
    var t, es, f := PrintNodes(n.trueBranch), PrintElifs(n.elifBranches), PrintElse(n.falseBranch);
    BranchesAt(b, pos, n);
    ClosesHere(b, pos + |t| + |es| + |f|);
    EndIfHere(b, pos + |t| + |es| + |f|);
    ElseBack(b, pos + |t| + |es|, n.falseBranch, depth);
    ElifsBack(b, pos + |t|, n.elifBranches, depth);
    BlockBack(b, pos, n.trueBranch, true, depth + 1);
    ElseTidy(b, pos + |t| + |es|, n.falseBranch, depth);
    ElifsTidy(b, pos + |t|, n.elifBranches, depth);
    BlockTidy(b, pos, n.trueBranch, true, depth + 1);
  }

  lemma EndIfHere(b: string, pos: nat)
    requires At(b, pos, Braced("/if"))
    ensures TagAt(b, pos).Some? && IsEndIf(TagAt(b, pos).value.inner)
  {
    hide TagAt, IsStop, IsElif, IsElse, IsEndIf, Trim, Braced, Nested;
    OtherWords();
    TagBack(b, pos, "/if");
  }

  lemma ClosesTidily(b: string, pos: nat)
    requires ClosesBranches(b, pos)
    ensures EndsTidily(b, pos, true)
  {}

  lemma {:induction false} ElseTidy(b: string, pos: nat, f: seq<Node>, depth: nat)
    requires depth < MAX_RECURSION_DEPTH && CanonNodes(f, MAX_RECURSION_DEPTH - depth - 1)
    requires At(b, pos, PrintElse(f))
    requires var end := pos + |PrintElse(f)|; ClosesBranches(b, end) && !IsElse(TagAt(b, end).value.inner)
    ensures TidyElse(b, pos, depth)
    decreases f, 1
  {
    hide TagAt, IsStop, IsElse, IsElif, TidyBlock, CanonNodes, PrintNodes, Trim;
    if f != [] {
      OtherWords();
      AtSplit(b, pos, Braced("else"), PrintNodes(f));
      TagBack(b, pos, "else");
      ClosesTidily(b, pos + |PrintElse(f)|);
      BlockTidy(b, pos + |Braced("else")|, f, true, depth + 1);
    }
  }

  lemma {:induction false} ElifsTidy(b: string, pos: nat, es: seq<Branch>, depth: nat)
    requires depth < MAX_RECURSION_DEPTH && CanonBranches(es, MAX_RECURSION_DEPTH - depth - 1)
    requires At(b, pos, PrintElifs(es)) && ClosesBranches(b, pos + |PrintElifs(es)|)
    ensures TidyElifs(b, pos, depth) && EndsTidily(b, pos, true)
    decreases es, 0
  {
    hide TagAt, IsStop, IsElif, BlockAt, TidyBlock, CanonNodes, CanonCondition, PrintNodes, Trim, Nested, Lower, Braced, Ends;
    if es == [] {
      ClosesTidily(b, pos);
    } else {
      var e, rest := es[0], es[1..];
      var open, body := Braced("elif " + e.condition), PrintNodes(e.body);
      ElifsSplit(b, pos, es);
      ElifWord(e.condition);
      TagBack(b, pos, "elif " + e.condition);
      ElifsTidy(b, pos + |open| + |body|, rest, depth);
      TidilyEnds(b, pos + |open| + |body|, true);
      BlockBack(b, pos + |open|, e.body, true, depth + 1);
      BlockTidy(b, pos + |open|, e.body, true, depth + 1);
    }
  }

  lemma PrintedTidy(nodes: seq<Node>)
    requires CanonNodes(nodes, MAX_RECURSION_DEPTH)
    ensures Tidy(PrintNodes(nodes))
  {
    hide CanonNodes, PrintNodes, TidyBlock;
    BlockTidy(PrintNodes(nodes), 0, nodes, false, 0);
  }

  /** The canonical trees are exactly what the parser makes of tidy templates. */
  lemma CanonIff(nodes: seq<Node>)
    ensures CanonNodes(nodes, MAX_RECURSION_DEPTH) <==> exists template :: Tidy(template) && Parse(template) == nodes
  {
    hide CanonNodes, PrintNodes, Parse, Tidy;
    if CanonNodes(nodes, MAX_RECURSION_DEPTH) {
      PrintedTidy(nodes);
      ParsePrinted(nodes);
    }
    forall template | Tidy(template) && Parse(template) == nodes ensures CanonNodes(nodes, MAX_RECURSION_DEPTH) {
      ParseCanon(template);
    }
  }

  // ---------------------------------------------------------------- untidy templates

  lemma {:induction false} NoClose(b: string, i: nat, depth: nat)
    requires i <= |b| && depth >= 1 && '}' !in b
    ensures CloseFrom(b, i, depth).None?
    decreases |b| - i
  {
    if i < |b| { NoClose(b, i + 1, if b[i] == '{' then depth + 1 else depth); }
  }

  lemma MeaningText(t: string, rest: seq<Node>, env: Env)
    ensures Meaning([Text(t)] + rest, env) == t + Meaning(rest, env)
  {
    assert ([Text(t)] + rest)[1..] == rest;
  }

  lemma {:induction false} PlainFrom(b: string, pos: nat, env: Env)
    requires pos <= |b| && '}' !in b
    ensures Meaning(BlockAt(b, pos, false, 0).nodes, env) == b[pos..]
    decreases |b| - pos
  {
    hide Meaning, RunEnd, CloseFrom, IfAt, VarOf, IsStop, IsVar;
    if pos == |b| {
      MeaningNothing(env);
    } else {
      var next := if b[pos] != '{' then RunEnd(b, pos) else pos + 1;
      NoClose(b, pos + 1, 1);
      PlainFrom(b, next, env);
      MeaningText(b[pos..next], BlockAt(b, next, false, 0).nodes, env);
      assert b[pos] == '{' ==> b[pos..next] == "{";
      assert b[pos..] == b[pos..next] + b[next..];
    }
  }

  lemma MeaningNothing(env: Env)
    ensures Meaning([], env) == ""
  {}

  /** A template without a closing brace renders as itself, opening braces included. */
  lemma PlainRenders(template: string, env: Env)
    requires '}' !in template && |template| <= MAX_TEMPLATE_LEN
    ensures Render(template, env) == template
  {
    hide BlockAt, Meaning, RenderNodes;
    RenderMeans(template, env);
    PlainFrom(template, 0, env);
    assert template[0..] == template;
  }

  lemma BlockCons(n: Node, more: seq<Node>, rest: Block)
    ensures Before(n, Block(more + rest.nodes, rest.next)) == Block([n] + more + rest.nodes, rest.next)
  {
    assert [n] + (more + rest.nodes) == [n] + more + rest.nodes;
  }

  lemma AtBound(b: string, pos: nat, s: string)
    requires At(b, pos, s)
    ensures pos + |s| <= |b|
  {}

  /** Printed nodes are read first, whatever follows them. */
  lemma {:induction false} BlockFront(b: string, pos: nat, nodes: seq<Node>, inside: bool, depth: nat)
    requires depth <= MAX_RECURSION_DEPTH && CanonNodes(nodes, MAX_RECURSION_DEPTH - depth) && At(b, pos, PrintNodes(nodes))
    requires var end := pos + |PrintNodes(nodes)|; end == |b| || b[end] == '{'
    ensures var rest := BlockAt(b, pos + |PrintNodes(nodes)|, inside, depth);
      BlockAt(b, pos, inside, depth) == Block(nodes + rest.nodes, rest.next)
    decreases nodes
  {
    hide BlockAt, PrintNode, CanonNode, RunNode, At, Before;
    if nodes == [] {
      AtBound(b, pos, "");
      assert [] + BlockAt(b, pos, inside, depth).nodes == BlockAt(b, pos, inside, depth).nodes;
    } else {
      var n, more := nodes[0], nodes[1..];
      AtSplit(b, pos, PrintNode(n), PrintNodes(more));
      var next := pos + |PrintNode(n)|;
      BlockFront(b, next, more, inside, depth);
      BlockCons(n, more, BlockAt(b, pos + |PrintNodes(nodes)|, inside, depth));
      assert [n] + more == nodes;
      if n.If? {
        IfBack(b, pos, n, inside, depth);
      } else {
        if RunNode(n) { FrontFollowed(b, next, more, MAX_RECURSION_DEPTH - depth); }
        LeafBack(b, pos, n, inside, depth);
      }
    }
  }

  lemma FrontFollowed(b: string, pos: nat, nodes: seq<Node>, room: nat)
    requires At(b, pos, PrintNodes(nodes)) && CanonNodes(nodes, room) && (nodes != [] ==> !RunNode(nodes[0]))
    requires var end := pos + |PrintNodes(nodes)|; end == |b| || b[end] == '{'
    ensures pos == |b| || b[pos] == '{'
  {
    hide CanonNode, RunNode, PrintNode;
    if nodes != [] {
      NotRunStarts(nodes[0], room);
      AtSplit(b, pos, PrintNode(nodes[0]), PrintNodes(nodes[1..]));
    }
  }

  lemma StrayBlock(b: string, pos: nat, inner: string, depth: nat)
    requires At(b, pos, Braced(inner)) && Nested(inner, 1) && IsStop(Trim(inner))
    ensures BlockAt(b, pos, false, depth) == BlockAt(b, pos + |Braced(inner)|, false, depth)
  {
    hide IsStop, IsIf, IsVar, IfAt, VarOf, Trim, RunEnd, Nested;
    TagBack(b, pos, inner);
  }

  /** Outside of conditionals an `else`, `elif` or `/if` shows nothing, and what stands around it is rendered as if
      it stood alone. */
  lemma StrayShowsNothing(a: seq<Node>, inner: string, c: seq<Node>, env: Env)
    requires CanonNodes(a, MAX_RECURSION_DEPTH) && CanonNodes(c, MAX_RECURSION_DEPTH)
    requires Nested(inner, 1) && IsStop(Trim(inner))
    requires |PrintNodes(a) + Braced(inner) + PrintNodes(c)| <= MAX_TEMPLATE_LEN
    ensures Render(PrintNodes(a) + Braced(inner) + PrintNodes(c), env)
         == Render(PrintNodes(a), env) + Render(PrintNodes(c), env)
  {
    hide CanonNodes, PrintNodes, RenderNodes, Meaning, Parse, IsStop, Trim, Nested, Braced;
    var b := PrintNodes(a) + Braced(inner) + PrintNodes(c);
    StrayParsed(a, inner, c);
    RenderMeans(b, env);
    MeaningSplit(a, c, env);
    PrintedMeans(a, env);
    PrintedMeans(c, env);
  }

  lemma ThreeAt(s: string, t: string, u: string)
    ensures var b := s + t + u; At(b, 0, s) && At(b, |s|, t) && At(b, |s| + |t|, u) && |b| == |s| + |t| + |u|
    ensures t != "" ==> (s + t + u)[|s|] == t[0]
  {
    var b := s + t + u;
    assert b[0..|s|] == s && b[|s|..|s| + |t|] == t && b[|s| + |t|..|s| + |t| + |u|] == u;
  }

  lemma BracedStarts(inner: string)
    ensures Braced(inner) != "" && Braced(inner)[0] == '{'
  {}

  lemma StopsAtEnd(b: string)
    ensures Ends(b, |b|, false)
  {}

  lemma StrayParsed(a: seq<Node>, inner: string, c: seq<Node>)
    requires CanonNodes(a, MAX_RECURSION_DEPTH) && CanonNodes(c, MAX_RECURSION_DEPTH)
    requires Nested(inner, 1) && IsStop(Trim(inner))
    ensures Parse(PrintNodes(a) + Braced(inner) + PrintNodes(c)) == a + c
  {
    hide CanonNodes, PrintNodes, BlockAt, IsStop, Trim, Nested, Braced, At;
    var (pa, tag, pc) := (PrintNodes(a), Braced(inner), PrintNodes(c));
    var b := pa + tag + pc;
    BracedStarts(inner);
    ThreeAt(pa, tag, pc);
    StopsAtEnd(b);
    BlockFront(b, 0, a, false, 0);
    StrayBlock(b, |pa|, inner, 0);
    BlockBack(b, |pa| + |tag|, c, false, 0);
  }

  lemma AfterEnd(b: string, depth: nat)
    ensures ElifsAt(b, |b|, depth) == Branches([], |b|) && ElseAt(b, |b|, depth) == Block([], |b|) && EndIfAt(b, |b|) == |b|
  {}

  lemma OpenIfBlock(b: string, c: string, t: seq<Node>)
    requires b == Braced("if " + c) + PrintNodes(t)
    requires CanonCondition(c) && CanonNodes(t, MAX_RECURSION_DEPTH - 1)
    ensures Parse(b) == [If(c, t, [], [])]
  {
    var open := Braced("if " + c);
    hide TagAt, IsStop, IsIf, IsVar, IfAt, VarOf, CanonNodes, CanonCondition, PrintNodes, Trim, RunEnd, Braced, Nested;
    assert b[0..|open|] == open && b[|open|..|open| + |PrintNodes(t)|] == PrintNodes(t);
    IfWord(c);
    TagBack(b, 0, "if " + c);
    OpenIfAt(b, |open|, c, t);
    AtEnd(b);
  }

  lemma AtEnd(b: string)
    ensures BlockAt(b, |b|, false, 0) == Block([], |b|)
  {}

  lemma OpenIfAt(b: string, pos: nat, c: string, t: seq<Node>)
    requires At(b, pos, PrintNodes(t)) && pos + |PrintNodes(t)| == |b| && CanonNodes(t, MAX_RECURSION_DEPTH - 1)
    ensures IfAt(b, pos, c, 0) == Block([If(c, t, [], [])], |b|)
  {
    hide BlockAt, ElifsAt, ElseAt, EndIfAt, CanonNodes, PrintNodes, IsStop;
    BlockBack(b, pos, t, true, 1);
    AfterEnd(b, 0);
  }

  /** A conditional that is never closed reaches to the end, and is rendered as if it were closed there. */
  lemma OpenIfRenders(c: string, t: seq<Node>, env: Env)
    requires CanonCondition(c) && CanonNodes(t, MAX_RECURSION_DEPTH - 1)
    requires |PrintNodes([If(c, t, [], [])])| <= MAX_TEMPLATE_LEN
    ensures Render(Braced("if " + c) + PrintNodes(t), env) == Render(PrintNodes([If(c, t, [], [])]), env)
  {
    var n := If(c, t, [], []);
    NothingCanon(MAX_RECURSION_DEPTH);
    NothingCanon(MAX_RECURSION_DEPTH - 1);
    assert CanonNode(n, MAX_RECURSION_DEPTH);
    CanonCons(n, [], MAX_RECURSION_DEPTH);
    assert [n] + [] == [n];
    PrintOne(n);
    PrintIf(n);
    hide CanonNodes, PrintNodes, RenderNodes, Meaning, Parse, CanonCondition;
    OpenIfBlock(Braced("if " + c) + PrintNodes(t), c, t);
    RenderMeans(Braced("if " + c) + PrintNodes(t), env);
    PrintedMeans([n], env);
  }
}
