/** Conditions of the template engine (backend/src/template.rs): `and`, `or` and `not`. */
module TemplateCondition {
  import opened Basics
  import opened Template

  const OR := " or "
  const AND := " and "
  const NOT := "not "

  // ---------------------------------------------------------------- evaluation

  /** `sep` is at `i`, in any case. */
  predicate Here(s: string, sep: string, i: nat) {
    i + |sep| <= |s| && Folds(s[i..i + |sep|], sep)
  }

  predicate Folds(w: string, sep: string) {
    |w| == |sep| && forall k :: 0 <= k < |w| ==> LowerChar(w[k]) == sep[k]
  }

  /** The parts from `start` on, when no separator begins between `start` and `i`. */
  function Pieces(s: string, sep: string, start: nat, i: nat): (parts: seq<string>)
    requires start <= i <= |s| && sep != ""
    ensures parts != []
    decreases |s| - i
  {
    if i + |sep| > |s| then [Trim(s[start..])]
    else if Here(s, sep, i) then [Trim(s[start..i])] + Pieces(s, sep, i + |sep|, i + |sep|)
    else Pieces(s, sep, start, i + 1)
  }

  lemma {:induction false} TrimStartShortens(s: string)
    ensures |TrimStart(s)| <= |s|
  {
    if s != "" && Space(s[0]) { TrimStartShortens(s[1..]); }
  }

  lemma {:induction false} TrimEndShortens(s: string)
    ensures |TrimEnd(s)| <= |s|
  {
    if s != "" && Space(s[|s| - 1]) { TrimEndShortens(s[..|s| - 1]); }
  }

  lemma TrimShortens(s: string)
    ensures |Trim(s)| <= |s|
  {
    TrimStartShortens(s);
    TrimEndShortens(TrimStart(s));
  }

  lemma {:induction false} PiecesShort(s: string, sep: string, start: nat, i: nat)
    requires start <= i <= |s| && sep != ""
    ensures var parts := Pieces(s, sep, start, i);
      forall p :: p in parts ==> |p| + (if |parts| > 1 then 1 else 0) <= |s| - start
    decreases |s| - i
  {
    hide Trim, Here;
    TrimShortens(s[start..]);
    TrimShortens(s[start..i]);
    if i + |sep| <= |s| {
      if Here(s, sep, i) {
        PiecesShort(s, sep, i + |sep|, i + |sep|);
      } else {
        PiecesShort(s, sep, start, i + 1);
      }
    }
  }

  function SplitAll(s: string, sep: string): (parts: seq<string>)
    requires sep != ""
    ensures |parts| > 1 ==> forall p :: p in parts ==> |p| < |s|
    ensures parts != [] && (|parts| == 1 ==> parts == [s])
  {
    var parts := Pieces(s, sep, 0, 0);
    if |parts| == 1 && parts[0] == Trim(s) then [s]
    else
      OnePiece(s, sep, 0, 0);
      PiecesShort(s, sep, 0, 0);
      parts
  }

  lemma {:induction false} OnePiece(s: string, sep: string, start: nat, i: nat)
    requires start <= i <= |s| && sep != ""
    ensures |Pieces(s, sep, start, i)| == 1 ==> Pieces(s, sep, start, i) == [Trim(s[start..])]
    decreases |s| - i
  {
    if i + |sep| <= |s| && !Here(s, sep, i) { OnePiece(s, sep, start, i + 1); }
  }

  /** `split_logical`. */
  method SplitLogical(s: string, sep: string) returns (parts: seq<string>)
    requires sep != ""
    ensures parts == SplitAll(s, sep)
  {
    hide Here, Trim;
    parts := [];
    var start: nat, i: nat := 0, 0;
    while i + |sep| <= |s|
      invariant start <= i <= |s|
      invariant Pieces(s, sep, 0, 0) == parts + Pieces(s, sep, start, i)
    {
      if Here(s, sep, i) {
        parts := parts + [Trim(s[start..i])];
        i := i + |sep|;
        start := i;
      } else {
        i := i + 1;
      }
    }
    parts := parts + [Trim(s[start..])];
    if |parts| == 1 && parts[0] == Trim(s) {
      return [s];
    }
  }

  /** `eval_condition`; `atom` stands for the comparison or truth test it ends in. */
  function Eval(cond: string, atom: string -> bool): bool
    decreases |cond|
  {
    TrimShortens(cond);
    var c := Trim(cond);
    var ors := SplitAll(c, OR);
    if |ors| > 1 then exists i :: 0 <= i < |ors| && Eval(ors[i], atom)
    else
      var ands := SplitAll(c, AND);
      if |ands| > 1 then forall i :: 0 <= i < |ands| ==> Eval(ands[i], atom)
      else if Here(c, NOT, 0) then !Eval(c[|NOT|..], atom)
      else atom(c)
  }

  // ---------------------------------------------------------------- conditions as trees

  /** An atom under `negations` times `not`. */
  datatype Literal = Literal(negations: nat, atom: string)

  function PrintLiteral(l: Literal): string
    decreases l.negations
  {
    if l.negations == 0 then l.atom else NOT + PrintLiteral(Literal(l.negations - 1, l.atom))
  }

  predicate LiteralHolds(l: Literal, atom: string -> bool) {
    atom(l.atom) <==> l.negations % 2 == 0
  }

  predicate AllHold(ls: seq<Literal>, atom: string -> bool) {
    forall i :: 0 <= i < |ls| ==> LiteralHolds(ls[i], atom)
  }

  function Glue(parts: seq<string>, sep: string): string
    requires parts != []
  {
    if |parts| == 1 then parts[0] else parts[0] + sep + Glue(parts[1..], sep)
  }

  function Printed(ls: seq<Literal>): (r: seq<string>)
    ensures |r| == |ls| && forall i :: 0 <= i < |ls| ==> r[i] == PrintLiteral(ls[i])
  {
    if ls == [] then [] else [PrintLiteral(ls[0])] + Printed(ls[1..])
  }

  function PrintConjunction(ls: seq<Literal>): string
    requires ls != []
  {
    Glue(Printed(ls), AND)
  }

  function PrintedAll(cs: seq<seq<Literal>>): (r: seq<string>)
    requires forall i :: 0 <= i < |cs| ==> cs[i] != []
    ensures |r| == |cs| && forall i :: 0 <= i < |cs| ==> r[i] == PrintConjunction(cs[i])
  {
    if cs == [] then [] else [PrintConjunction(cs[0])] + PrintedAll(cs[1..])
  }

  /** `sep` is not among the words, whatever stands around the text. */
  ghost predicate Wordless(s: string, sep: string) {
    forall i: nat :: !Here(" " + s + " ", sep, i)
  }

  ghost predicate CanonAtom(s: string) {
    s != "" && Trimmed(s) && Wordless(s, OR) && Wordless(s, AND) && !Here(s, NOT, 0)
  }

  ghost predicate Plain(s: string, sep: string) { s != "" && Trimmed(s) && Wordless(s, sep) }

  lemma Unlike(w: string, sep: string, k: nat)
    requires k < |w| && k < |sep| && LowerChar(w[k]) != sep[k]
    ensures !Folds(w, sep)
  {}

  /** Whether a separator is somewhere depends only on the text around it. */
  lemma Window(whole: string, at: nat, part: string, i: nat, sep: string)
    requires At(whole, at, part) && i + |sep| <= |part|
    ensures Here(whole, sep, at + i) == Here(part, sep, i)
  {
    var w, a, c := whole[at..at + |part|], whole[at + i..at + i + |sep|], part[i..i + |sep|];
    forall k | 0 <= k < |sep| ensures a[k] == c[k] {
      assert a[k] == whole[at + (i + k)] == w[i + k];
    }
    assert a == c;
  }

  lemma NotKeepsWordless(t: string, sep: string)
    requires Wordless(t, sep) && (sep == OR || sep == AND)
    ensures Wordless(NOT + t, sep)
  {
    hide Here, Folds;
    var whole, inner := " " + (NOT + t) + " ", " " + t + " ";
    assert whole == " not" + inner;
    assert whole[4..4 + |inner|] == inner;
    forall i: nat ensures !Here(whole, sep, i) {
      if i + |sep| > |whole| {
        TooLate(whole, sep, i);
      } else if i >= 4 {
        Window(whole, 4, inner, i - 4, sep);
        assert !Here(inner, sep, i - 4);
      } else {
        NotIsOther(whole, inner, sep, i);
      }
    }
  }

  lemma TooLate(s: string, sep: string, i: nat)
    requires i + |sep| > |s|
    ensures !Here(s, sep, i)
  {}

  /** Within the word `not` no separator begins. */
  lemma NotIsOther(whole: string, rest: string, sep: string, i: nat)
    requires whole == " not" + rest && (sep == OR || sep == AND) && i < 4 && i + |sep| <= |whole|
    ensures !Here(whole, sep, i)
  {
    var w := whole[i..i + |sep|];
    assert w[0] == whole[i] && w[1] == whole[i + 1];
    Unlike(w, sep, if i == 0 then 1 else 0);
  }

  lemma {:induction false} LiteralPlain(l: Literal, sep: string)
    requires CanonAtom(l.atom) && (sep == OR || sep == AND)
    ensures Plain(PrintLiteral(l), sep)
    decreases l.negations
  {
    hide Wordless;
    if l.negations > 0 {
      var t := PrintLiteral(Literal(l.negations - 1, l.atom));
      LiteralPlain(Literal(l.negations - 1, l.atom), sep);
      NotKeepsWordless(t, sep);
      assert (NOT + t)[|NOT + t| - 1] == t[|t| - 1];
    }
  }

  /** A conjunction of texts without `or` is one. */
  lemma AndKeepsPlain(s: string, t: string)
    requires Plain(s, OR) && Plain(t, OR)
    ensures Plain(s + AND + t, OR)
  {
    var joined := s + AND + t;
    assert joined[|joined| - 1] == t[|t| - 1] && joined[0] == s[0];
    forall i: nat | i + 4 <= |joined| + 2 ensures !Here(" " + joined + " ", OR, i) {
      NoOrIn(s, t, i);
    }
  }

  lemma NoOrIn(s: string, t: string, i: nat)
    requires Wordless(s, OR) && Wordless(t, OR) && i + 4 <= |s| + |t| + 7
    ensures !Here(" " + (s + AND + t) + " ", OR, i)
  {
    hide Folds;
    var whole, left, right := " " + (s + AND + t) + " ", " " + s + " ", " " + t + " ";
    if i + 4 <= |s| + 2 {
      assert whole[0..|left|] == left;
      Window(whole, 0, left, i, OR);
      assert !Here(left, OR, i);
    } else if i >= |s| + 5 {
      assert whole[|s| + 5..|s| + 5 + |right|] == right;
      Window(whole, |s| + 5, right, i - |s| - 5, OR);
      assert !Here(right, OR, i - |s| - 5);
    } else {
      AcrossAnd(s, t, i);
    }
  }

  /** A window over some letter of the `and` is no `or`. */
  lemma AcrossAnd(s: string, t: string, i: nat)
    requires |s| - 2 < i < |s| + 5 && i + 4 <= |s| + |t| + 7
    ensures !Here(" " + (s + AND + t) + " ", OR, i)
  {
    var whole := " " + (s + AND + t) + " ";
    assert whole[|s| + 2] == 'a' && whole[|s| + 3] == 'n' && whole[|s| + 4] == 'd';
    var k := if i <= |s| + 2 then |s| + 2 - i else 0;
    assert whole[i..i + 4][k] == whole[i + k];
    Unlike(whole[i..i + 4], OR, k);
  }

  lemma {:induction false} GluePlain(parts: seq<string>)
    requires parts != [] && forall p :: p in parts ==> Plain(p, OR)
    ensures Plain(Glue(parts, AND), OR)
    decreases |parts|
  {
    hide Plain;
    if |parts| > 1 {
      GluePlain(parts[1..]);
      AndKeepsPlain(parts[0], Glue(parts[1..], AND));
    }
  }

  // ---------------------------------------------------------------- splitting undoes gluing

  /** Without a separator between `i` and `j`, the search moves on to `j`. */
  lemma {:induction false} PiecesSkip(s: string, sep: string, start: nat, i: nat, j: nat)
    requires start <= i <= j <= |s| && sep != "" && forall k: nat :: i <= k < j ==> !Here(s, sep, k)
    ensures Pieces(s, sep, start, i) == if j + |sep| <= |s| then Pieces(s, sep, start, j) else [Trim(s[start..])]
    decreases j - i
  {
    hide Here, Trim;
    if i < j && i + |sep| <= |s| { PiecesSkip(s, sep, start, i + 1, j); }
  }

  lemma FoldsItself(sep: string)
    requires sep == OR || sep == AND
    ensures Folds(sep, sep)
  {}

  /** The first separator behind a plain part is the one put there. */
  lemma FirstHere(p: string, rest: string, sep: string)
    requires (sep == OR || sep == AND) && Wordless(p, sep)
    ensures Here(p + sep + rest, sep, |p|) && forall k: nat :: k < |p| ==> !Here(p + sep + rest, sep, k)
  {
    hide Folds;
    var s, left := p + sep + rest, p + " ";
    assert (" " + p + " ")[1..1 + |left|] == left && s[0..|left|] == left;
    FoldsItself(sep);
    assert s[|p|..|p| + |sep|] == sep;
    forall k: nat | k < |p| ensures !Here(s, sep, k) {
      if k + |sep| <= |p| + 1 {
        Window(s, 0, left, k, sep);
        Window(" " + p + " ", 1, left, k, sep);
        assert !Here(" " + p + " ", sep, 1 + k);
      } else {
        var last := |sep| - 1;
        assert k + |sep| <= |s| ==> s[k..k + |sep|][last] == s[k + last] == sep[k + last - |p|];
        if k + |sep| <= |s| { Unlike(s[k..k + |sep|], sep, last); }
      }
    }
  }

  lemma NoneHere(s: string, sep: string)
    requires Wordless(s, sep) && sep != ""
    ensures forall k: nat :: !Here(s, sep, k)
  {
    hide Folds;
    var padded := " " + s + " ";
    assert padded[1..1 + |s|] == s;
    forall k: nat | k + |sep| <= |s| ensures !Here(s, sep, k) {
      Window(padded, 1, s, k, sep);
      assert !Here(padded, sep, 1 + k);
    }
  }

  /** The pieces depend only on what is behind `start`. */
  lemma {:induction false} PiecesTail(s: string, t: string, sep: string, start: nat, d: nat)
    requires start + d <= |s| && t == s[start..] && sep != ""
    ensures Pieces(s, sep, start, start + d) == Pieces(t, sep, 0, d)
    decreases |t| - d
  {
    hide Here, Trim;
    assert t[0..] == t;
    if d + |sep| <= |t| {
      Window(s, start, t, d, sep);
      if Here(t, sep, d) {
        var u := t[d + |sep|..];
        assert u == s[start + d + |sep|..];
        PiecesTail(s, u, sep, start + d + |sep|, 0);
        PiecesTail(t, u, sep, d + |sep|, 0);
        assert s[start..start + d] == t[0..d];
      } else {
        PiecesTail(s, t, sep, start, d + 1);
      }
    }
  }

  lemma PiecesFirst(p: string, rest: string, sep: string)
    requires (sep == OR || sep == AND) && Plain(p, sep)
    ensures Pieces(p + sep + rest, sep, 0, 0) == [p] + Pieces(rest, sep, 0, 0)
  {
    hide Here, Wordless, Trim;
    var s := p + sep + rest;
    TrimTrimmed(p);
    FirstHere(p, rest, sep);
    PiecesSkip(s, sep, 0, 0, |p|);
    assert s[0..|p|] == p && s[|p| + |sep|..] == rest;
    PiecesTail(s, rest, sep, |p| + |sep|, 0);
  }

  lemma PiecesLast(p: string, sep: string)
    requires (sep == OR || sep == AND) && Plain(p, sep)
    ensures Pieces(p, sep, 0, 0) == [p]
  {
    hide Here, Wordless, Trim;
    TrimTrimmed(p);
    NoneHere(p, sep);
    PiecesSkip(p, sep, 0, 0, |p|);
    assert p[0..] == p;
  }

  lemma {:induction false} PiecesGlued(parts: seq<string>, sep: string)
    requires (sep == OR || sep == AND) && parts != [] && forall p :: p in parts ==> Plain(p, sep)
    ensures Pieces(Glue(parts, sep), sep, 0, 0) == parts
    decreases |parts|
  {
    hide Plain, Pieces;
    if |parts| == 1 {
      PiecesLast(parts[0], sep);
    } else {
      PiecesGlued(parts[1..], sep);
      PiecesFirst(parts[0], Glue(parts[1..], sep), sep);
    }
  }

  /** `split_logical` undoes gluing. */
  lemma SplitGlued(parts: seq<string>, sep: string)
    requires (sep == OR || sep == AND) && parts != [] && forall p :: p in parts ==> Plain(p, sep)
    ensures SplitAll(Glue(parts, sep), sep) == parts
  {
    hide Plain, Pieces, Trim;
    PiecesGlued(parts, sep);
  }

  // ---------------------------------------------------------------- evaluation means what the tree says

  lemma SplitOne(s: string, sep: string)
    requires (sep == OR || sep == AND) && Plain(s, sep)
    ensures SplitAll(s, sep) == [s]
  {
    assert Glue([s], sep) == s;
    SplitGlued([s], sep);
  }

  /** A condition without `and` and `or`. */
  lemma EvalSingle(c: string, atom: string -> bool)
    requires Trim(c) == c && SplitAll(c, OR) == [c] && SplitAll(c, AND) == [c]
    ensures Eval(c, atom) == if Here(c, NOT, 0) then !Eval(c[|NOT|..], atom) else atom(c)
  {
    hide SplitAll, Trim, Folds;
  }

  lemma StartsNot(t: string)
    ensures Here(NOT + t, NOT, 0) && (NOT + t)[|NOT|..] == t
  {
    assert (NOT + t)[0..0 + |NOT|] == NOT;
  }

  lemma {:induction false} EvalLiteral(l: Literal, atom: string -> bool)
    requires CanonAtom(l.atom)
    ensures Eval(PrintLiteral(l), atom) == LiteralHolds(l, atom)
    decreases l.negations
  {
    hide SplitAll, Wordless, Trim, Eval, Here;
    var c := PrintLiteral(l);
    LiteralPlain(l, OR);
    LiteralPlain(l, AND);
    TrimTrimmed(c);
    SplitOne(c, OR);
    SplitOne(c, AND);
    EvalSingle(c, atom);
    if l.negations > 0 {
      var inner := Literal(l.negations - 1, l.atom);
      EvalLiteral(inner, atom);
      StartsNot(PrintLiteral(inner));
    }
  }

  lemma EvalConjunction(ls: seq<Literal>, atom: string -> bool)
    requires ls != [] && forall l :: l in ls ==> CanonAtom(l.atom)
    ensures Plain(PrintConjunction(ls), OR)
    ensures Eval(PrintConjunction(ls), atom) == AllHold(ls, atom)
  {
    hide SplitAll, Wordless, Trim, CanonAtom, PrintLiteral, LiteralHolds, Here;
    var parts, c := Printed(ls), PrintConjunction(ls);
    forall i | 0 <= i < |ls|
      ensures Plain(parts[i], OR) && Plain(parts[i], AND) && Eval(parts[i], atom) == LiteralHolds(ls[i], atom)
    {
      LiteralPlain(ls[i], OR);
      LiteralPlain(ls[i], AND);
      EvalLiteral(ls[i], atom);
    }
    GluePlain(parts);
    if |ls| == 1 {
      assert c == parts[0];
    } else {
      TrimTrimmed(c);
      SplitOne(c, OR);
      SplitGlued(parts, AND);
    }
  }

  lemma EvalUnfoldsOr(c: string, parts: seq<string>, atom: string -> bool)
    requires Trim(c) == c && SplitAll(c, OR) == parts && |parts| > 1
    ensures Eval(c, atom) <==> exists i :: 0 <= i < |parts| && Eval(parts[i], atom)
  {
    hide SplitAll, Trim, Here;
  }

  lemma EvalOr(parts: seq<string>, atom: string -> bool)
    requires parts != [] && forall p :: p in parts ==> Plain(p, OR)
    ensures Eval(Glue(parts, OR), atom) <==> exists i :: 0 <= i < |parts| && Eval(parts[i], atom)
  {
    hide SplitAll, Plain, Trim, Glue, Eval;
    var c := Glue(parts, OR);
    GlueTrimmed(parts);
    if |parts| == 1 {
      assert Eval(parts[0], atom) == Eval(c, atom);
    } else {
      TrimTrimmed(c);
      SplitGlued(parts, OR);
      EvalUnfoldsOr(c, parts, atom);
    }
  }

  /** For every disjunction of conjunctions of negated atoms whose words are not `and`, `or` or a
      leading `not`: the printed condition holds exactly if every literal of some conjunction does.
      So `not` binds tighter than `and`, and `and` tighter than `or`. */
  lemma EvalMeans(cs: seq<seq<Literal>>, atom: string -> bool)
    requires cs != [] && (forall i :: 0 <= i < |cs| ==> cs[i] != [])
    requires forall i, l :: 0 <= i < |cs| && l in cs[i] ==> CanonAtom(l.atom)
    ensures Eval(Glue(PrintedAll(cs), OR), atom)
       <==> exists i :: 0 <= i < |cs| && AllHold(cs[i], atom)
  {
    hide Eval, PrintConjunction, AllHold, Plain;
    var parts := PrintedAll(cs);
    forall i | 0 <= i < |cs|
      ensures Plain(parts[i], OR) && Eval(parts[i], atom) == AllHold(cs[i], atom)
    {
      EvalConjunction(cs[i], atom);
    }
    EvalOr(parts, atom);
  }

  lemma {:induction false} GlueTrimmed(parts: seq<string>)
    requires parts != [] && forall p :: p in parts ==> Plain(p, OR)
    ensures Glue(parts, OR) != "" && Trimmed(Glue(parts, OR)) && (|parts| == 1 ==> Glue(parts, OR) == parts[0])
    decreases |parts|
  {
    hide Wordless;
    assert Plain(parts[0], OR);
    if |parts| > 1 {
      var rest := Glue(parts[1..], OR);
      GlueTrimmed(parts[1..]);
      var s := parts[0] + OR + rest;
      assert s[|s| - 1] == rest[|rest| - 1] && s[0] == parts[0][0];
    }
  }
}
