/** The stream template engine (backend/src/template.rs): parser and renderer.
    Templates are ASCII: one character is one byte. */
module Template {
  import opened Basics
  import opened Wrappers

  const MAX_RECURSION_DEPTH: nat := 10
  const MAX_MODIFIERS_CHAIN: nat := 10
  const MAX_TEMPLATE_LEN: nat := 10_000

  datatype Modifier = Modifier(name: string, arg: Option<string>)
  datatype Branch = Branch(condition: string, body: seq<Node>)
  datatype Node =
    | Text(text: string)
    | Var(path: string, modifiers: seq<Modifier>)
    | If(condition: string, trueBranch: seq<Node>, elifBranches: seq<Branch>, falseBranch: seq<Node>)

  // ---------------------------------------------------------------- characters

  predicate Space(c: char) { c == ' ' || '\t' <= c <= '\r' }

  predicate NameStart(c: char) {
    'a' <= c <= 'z' || 'A' <= c <= 'Z' || '0' <= c <= '9' || c == '_'
  }

  function TrimStart(s: string): string {
    if s != "" && Space(s[0]) then TrimStart(s[1..]) else s
  }

  function TrimEnd(s: string): string {
    if s != "" && Space(s[|s| - 1]) then TrimEnd(s[..|s| - 1]) else s
  }

  function Trim(s: string): string { TrimEnd(TrimStart(s)) }

  predicate Trimmed(s: string) { s == "" || (!Space(s[0]) && !Space(s[|s| - 1])) }

  predicate HasPrefix(s: string, n: nat, lower: string) { |s| > n && Lower(s[..n]) == lower }

  // ---------------------------------------------------------------- tags

  predicate IsElif(tag: string) { HasPrefix(tag, 5, "elif ") }
  predicate IsElse(tag: string) { Lower(tag) == "else" }
  predicate IsEndIf(tag: string) { Lower(tag) == "/if" }
  predicate IsStop(tag: string) { IsEndIf(tag) || IsElse(tag) || IsElif(tag) }
  predicate IsIf(tag: string) { HasPrefix(tag, 3, "if ") }
  predicate IsVar(tag: string) { tag != "" && NameStart(tag[0]) }

  /** Tags are known by their words, in capitals or not. */
  lemma TagsInAnyCase(s: string, t: string)
    requires Lower(s) == Lower(t)
    ensures IsStop(s) == IsStop(t) && IsIf(s) == IsIf(t) && IsElif(s) == IsElif(t) && IsElse(s) == IsElse(t)
  {
    forall i | 0 <= i < |s| ensures LowerChar(s[i]) == LowerChar(t[i]) {
      assert Lower(s)[i] == LowerChar(s[i]) && Lower(t)[i] == LowerChar(t[i]);
    }
    SameStart(s, t, 3);
    SameStart(s, t, 5);
  }

  lemma SameStart(s: string, t: string, n: nat)
    requires |s| == |t| && forall i :: 0 <= i < |s| ==> LowerChar(s[i]) == LowerChar(t[i])
    ensures n <= |s| ==> Lower(s[..n]) == Lower(t[..n])
  {
    if n <= |s| { assert forall i :: 0 <= i < n ==> Lower(s[..n])[i] == Lower(t[..n])[i]; }
  }

  /** Index of the brace that closes `depth` open ones, from `i` on. */
  function CloseFrom(b: string, i: nat, depth: nat): (r: Option<nat>)
    requires i <= |b| && depth >= 1
    ensures r.Some? ==> i <= r.value < |b|
    decreases |b| - i
  {
    if i == |b| then None
    else if b[i] == '{' then CloseFrom(b, i + 1, depth + 1)
    else if b[i] == '}' then if depth == 1 then Some(i) else CloseFrom(b, i + 1, depth - 1)
    else CloseFrom(b, i + 1, depth)
  }

  /** `find_close`. */
  method FindClose(b: string, start: nat) returns (r: Option<nat>)
    requires start < |b| && b[start] == '{'
    ensures r == CloseFrom(b, start + 1, 1)
  {
    var depth: nat := 0;
    var i := start;
    while i < |b|
      invariant start <= i <= |b|
      invariant if i == start then depth == 0 else depth >= 1 && CloseFrom(b, start + 1, 1) == CloseFrom(b, i, depth)
    {
      if b[i] == '{' {
        depth := depth + 1;
      } else if b[i] == '}' {
        depth := depth - 1;
        if depth == 0 {
          return Some(i);
        }
      }
      i := i + 1;
    }
    return None;
  }

  /** A `{...}` and the position behind it. */
  datatype Tag = Tag(inner: string, next: nat)

  function TagAt(b: string, pos: nat): (r: Option<Tag>)
    requires pos <= |b|
    ensures r.Some? ==> pos < r.value.next <= |b|
  {
    if pos == |b| || b[pos] != '{' then None
    else match CloseFrom(b, pos + 1, 1)
      case None => None
      case Some(close) => Some(Tag(Trim(b[pos + 1..close]), close + 1))
  }

  method ReadTag(b: string, pos: nat) returns (r: Option<Tag>)
    requires pos <= |b|
    ensures r == TagAt(b, pos)
  {
    if pos == |b| || b[pos] != '{' {
      return None;
    }
    var close := FindClose(b, pos);
    return if close.None? then None else Some(Tag(Trim(b[pos + 1..close.value]), close.value + 1));
  }

  // ---------------------------------------------------------------- variables

  datatype Scanner = Scanner(depth: nat, single: bool, double: bool)

  const OUTSIDE := Scanner(0, false, false)

  predicate Splits(sc: Scanner, c: char, delim: char) {
    c == delim && c !in "'\"()" && sc == OUTSIDE
  }

  function Advance(sc: Scanner, c: char): Scanner {
    if c == '\'' && !sc.double then sc.(single := !sc.single)
    else if c == '"' && !sc.single then sc.(double := !sc.double)
    else if c == '(' && !sc.single && !sc.double then sc.(depth := sc.depth + 1)
    else if c == ')' && !sc.single && !sc.double then sc.(depth := if sc.depth == 0 then 0 else sc.depth - 1)
    else sc
  }

  function Split(s: string, delim: char, sc: Scanner, cur: string): (parts: seq<string>)
    ensures parts != []
  {
    if s == "" then [cur]
    else if Splits(sc, s[0], delim) then [cur] + Split(s[1..], delim, sc, "")
    else Split(s[1..], delim, Advance(sc, s[0]), cur + [s[0]])
  }

  /** `smart_split`. */
  method SmartSplit(s: string, delim: char) returns (parts: seq<string>)
    ensures parts == Split(s, delim, OUTSIDE, "")
  {
    parts := [];
    var cur := "";
    var depth: nat, inSq, inDq := 0, false, false;
    for i := 0 to |s|
      invariant Split(s, delim, OUTSIDE, "") == parts + Split(s[i..], delim, Scanner(depth, inSq, inDq), cur)
    {
      var ch := s[i];
      assert s[i..][1..] == s[i + 1..];
      if ch == '\'' && !inDq {
        inSq := !inSq;
        cur := cur + [ch];
      } else if ch == '"' && !inSq {
        inDq := !inDq;
        cur := cur + [ch];
      } else if ch == '(' && !inSq && !inDq {
        depth := depth + 1;
        cur := cur + [ch];
      } else if ch == ')' && !inSq && !inDq {
        depth := if depth == 0 then 0 else depth - 1;
        cur := cur + [ch];
      } else if ch == delim && depth == 0 && !inSq && !inDq {
        parts := parts + [cur];
        cur := "";
      } else {
        cur := cur + [ch];
      }
    }
    parts := parts + [cur];
  }

  function IndexOf(s: string, c: char): (r: Option<nat>)
    ensures r.Some? ==> r.value < |s| && s[r.value] == c && c !in s[..r.value]
    ensures r.None? ==> c !in s
  {
    if s == "" then None
    else if s[0] == c then Some(0)
    else
      var rest := IndexOf(s[1..], c);
      if rest.None? then None
      else
        assert s[..rest.value + 1] == [s[0]] + s[1..][..rest.value];
        Some(rest.value + 1)
  }

  function ParseModifier(text: string): Modifier {
    var part := Trim(text);
    var paren := IndexOf(part, '(');
    if paren.Some? && part[|part| - 1] == ')' then
      Modifier(Lower(Trim(part[..paren.value])), Some(Trim(part[paren.value + 1..|part| - 1])))
    else Modifier(Lower(part), None)
  }

  /** The modifiers of the first `room` parts. */
  function ParseModifiers(parts: seq<string>, room: nat): seq<Modifier> {
    if parts == [] || room == 0 then []
    else [ParseModifier(parts[0])] + ParseModifiers(parts[1..], room - 1)
  }

  function VarOf(inner: string): (n: Node)
    ensures n.Var?
  {
    var parts := Split(inner, '|', OUTSIDE, "");
    Var(Trim(parts[0]), ParseModifiers(parts[1..], MAX_MODIFIERS_CHAIN))
  }

  /** Modifiers from the eleventh on are dropped, and the others kept as if they stood alone. */
  lemma {:induction false} ModifiersCut(parts: seq<string>, room: nat)
    ensures var n := Min(|parts|, room); var ms := ParseModifiers(parts, room);
      |ms| == n && forall i :: 0 <= i < n ==> ms[i] == ParseModifier(parts[i])
    decreases |parts|
  {
    hide ParseModifier;
    if parts != [] && room > 0 {
      ModifiersCut(parts[1..], room - 1);
      assert forall i :: 0 <= i < |parts[1..]| ==> parts[1..][i] == parts[i + 1];
    }
  }

  /** `parse_var`. */
  method ParseVar(inner: string) returns (path: string, modifiers: seq<Modifier>)
    ensures Var(path, modifiers) == VarOf(inner)
  {
    hide Split, ParseModifier, Trim;
    var parts := SmartSplit(inner, '|');
    path := Trim(parts[0]);
    modifiers := [];
    var i := 1;
    while i < |parts|
      invariant 1 <= i <= |parts| && |modifiers| <= MAX_MODIFIERS_CHAIN
      invariant ParseModifiers(parts[1..], MAX_MODIFIERS_CHAIN)
             == modifiers + ParseModifiers(parts[i..], MAX_MODIFIERS_CHAIN - |modifiers|)
    {
      if |modifiers| >= MAX_MODIFIERS_CHAIN {
        break;
      }
      assert parts[i..][1..] == parts[i + 1..];
      modifiers := modifiers + [ParseModifier(parts[i])];
      i := i + 1;
    }
  }

  // ---------------------------------------------------------------- blocks

  /** Nodes parsed, and where the parser stopped. */
  datatype Block = Block(nodes: seq<Node>, next: nat)
  datatype Branches = Branches(list: seq<Branch>, next: nat)

  function Before(n: Node, rest: Block): Block { Block([n] + rest.nodes, rest.next) }

  /** End of the run without an opening brace. */
  function RunEnd(b: string, pos: nat): (r: nat)
    requires pos <= |b|
    ensures pos <= r <= |b| && (pos < |b| && b[pos] != '{' ==> pos < r)
    decreases |b| - pos
  {
    if pos < |b| && b[pos] != '{' then RunEnd(b, pos + 1) else pos
  }

  /** What `parse_block` appends from `pos` on, and where it leaves the cursor. */
  function BlockAt(b: string, pos: nat, inside: bool, depth: nat): (r: Block)
    requires pos <= |b|
    ensures pos <= r.next <= |b|
    decreases |b| - pos, 0
  {
    if pos == |b| then Block([], pos)
    else if b[pos] != '{' then
      Before(Text(b[pos..RunEnd(b, pos)]), BlockAt(b, RunEnd(b, pos), inside, depth))
    else match TagAt(b, pos)
      case None => Before(Text("{"), BlockAt(b, pos + 1, inside, depth))
      case Some(Tag(inner, next)) =>
        if IsStop(inner) then if inside then Block([], pos) else BlockAt(b, next, inside, depth)
        else if IsIf(inner) && depth < MAX_RECURSION_DEPTH then
          var t := IfAt(b, next, Trim(inner[3..]), depth);
          Before(t.nodes[0], BlockAt(b, t.next, inside, depth))
        else
          var node := if !IsIf(inner) && IsVar(inner) then VarOf(inner) else Text(b[pos..next]);
          Before(node, BlockAt(b, next, inside, depth))
  }

  /** The conditional whose opening tag ends at `pos`, as the only node. */
  function IfAt(b: string, pos: nat, condition: string, depth: nat): (r: Block)
    requires pos <= |b|
    ensures pos <= r.next <= |b| && |r.nodes| == 1
    decreases |b| - pos, 1
  {
    var t := BlockAt(b, pos, true, depth + 1);
    var e := ElifsAt(b, t.next, depth);
    var f := ElseAt(b, e.next, depth);
    Block([If(condition, t.nodes, e.list, f.nodes)], EndIfAt(b, f.next))
  }

  function ElifsAt(b: string, pos: nat, depth: nat): (r: Branches)
    requires pos <= |b|
    ensures pos <= r.next <= |b|
    decreases |b| - pos, 0
  {
    var tag := TagAt(b, pos);
    if tag.None? || !IsElif(tag.value.inner) then Branches([], pos)
    else
      var body := BlockAt(b, tag.value.next, true, depth + 1);
      var rest := ElifsAt(b, body.next, depth);
      Branches([Branch(Trim(tag.value.inner[5..]), body.nodes)] + rest.list, rest.next)
  }

  function ElseAt(b: string, pos: nat, depth: nat): (r: Block)
    requires pos <= |b|
    ensures pos <= r.next <= |b|
    decreases |b| - pos, 0
  {
    var tag := TagAt(b, pos);
    if tag.None? || !IsElse(tag.value.inner) then Block([], pos)
    else BlockAt(b, tag.value.next, true, depth + 1)
  }

  function EndIfAt(b: string, pos: nat): (r: nat)
    requires pos <= |b|
    ensures pos <= r <= |b|
  {
    var tag := TagAt(b, pos);
    if tag.None? || !IsEndIf(tag.value.inner) then pos else tag.value.next
  }

  /** `out` and what is still to be parsed make up what was to be appended to `out0`. */
  ghost predicate Remaining(out0: seq<Node>, whole: Block, out: seq<Node>, rest: Block) {
    out0 + whole.nodes == out + rest.nodes && whole.next == rest.next
  }

  lemma RemainingStep(out0: seq<Node>, whole: Block, out: seq<Node>, n: Node, rest: Block)
    requires Remaining(out0, whole, out, Before(n, rest))
    ensures Remaining(out0, whole, out + [n], rest)
  {}

  lemma RemainingAll(out0: seq<Node>, whole: Block)
    ensures Remaining(out0, whole, out0, whole)
  {}

  lemma RemainingNone(out0: seq<Node>, whole: Block, out: seq<Node>, rest: Block)
    requires Remaining(out0, whole, out, rest) && rest.nodes == []
    ensures out == out0 + whole.nodes && whole.next == rest.next
  {}

  method SkipRun(b: string, start: nat) returns (pos: nat)
    requires start <= |b|
    ensures pos == RunEnd(b, start)
  {
    pos := start;
    while pos < |b| && b[pos] != '{'
      invariant start <= pos <= |b| && RunEnd(b, start) == RunEnd(b, pos)
    {
      pos := pos + 1;
    }
  }

  /** `parse_block`: appends to `out0`, from the cursor `start`. */
  method ParseBlock(b: string, start: nat, out0: seq<Node>, inside: bool, depth: nat)
    returns (pos: nat, out: seq<Node>)
    requires start <= |b|
    ensures var r := BlockAt(b, start, inside, depth); pos == r.next && out == out0 + r.nodes
    decreases |b| - start, 0
  {
    hide TagAt, VarOf, IfAt, IsStop, IsVar, Trim, Lower, RunEnd, Remaining, Before;
    pos, out := start, out0;
    ghost var whole := BlockAt(b, start, inside, depth);
    RemainingAll(out0, whole);
    while pos < |b|
      invariant start <= pos <= |b|
      invariant Remaining(out0, whole, out, BlockAt(b, pos, inside, depth))
      decreases |b| - pos
    {
      var at := pos;
      var node;
      if b[pos] != '{' {
        pos := SkipRun(b, pos);
        node := Text(b[at..pos]);
      } else {
        var tag := ReadTag(b, pos);
        if tag.None? {
          node := Text("{");
          pos := pos + 1;
        } else {
          var inner, next := tag.value.inner, tag.value.next;
          if IsStop(inner) {
            if inside {
              break;
            }
            pos := next;
            continue;
          }
          if IsIf(inner) && depth < MAX_RECURSION_DEPTH {
            pos, node := ParseIf(b, next, Trim(inner[3..]), depth);
          } else if !IsIf(inner) && IsVar(inner) {
            var path, modifiers := ParseVar(inner);
            node := Var(path, modifiers);
            pos := next;
          } else {
            node := Text(b[pos..next]);
            pos := next;
          }
        }
      }
      RemainingStep(out0, whole, out, node, BlockAt(b, pos, inside, depth));
      out := out + [node];
    }
    RemainingNone(out0, whole, out, BlockAt(b, pos, inside, depth));
  }

  /** The part of `parse_block` behind an opening `{if ...}`. */
  method ParseIf(b: string, start: nat, condition: string, depth: nat) returns (pos: nat, node: Node)
    requires start <= |b|
    ensures var r := IfAt(b, start, condition, depth); pos == r.next && node == r.nodes[0]
    decreases |b| - start, 1
  {
    hide TagAt, BlockAt, IsElse, IsEndIf, Trim, Lower;
    var trueBranch;
    pos, trueBranch := ParseBlock(b, start, [], true, depth + 1);
    var elifBranches: seq<Branch> := [];
    ghost var elifs := ElifsAt(b, pos, depth);
    while true
      invariant start <= pos <= |b|
      invariant var rest := ElifsAt(b, pos, depth); elifs.list == elifBranches + rest.list && elifs.next == rest.next
      decreases |b| - pos
    {
      var tag := ReadTag(b, pos);
      if tag.None? || !IsElif(tag.value.inner) {
        break;
      }
      ghost var before := ElifsAt(b, pos, depth);
      var branch, body := Trim(tag.value.inner[5..]), [];
      pos, body := ParseBlock(b, tag.value.next, [], true, depth + 1);
      assert body == BlockAt(b, tag.value.next, true, depth + 1).nodes;
      assert before.list == [Branch(branch, body)] + ElifsAt(b, pos, depth).list;
      elifBranches := elifBranches + [Branch(branch, body)];
    }
    var falseBranch := [];
    var tag := ReadTag(b, pos);
    if tag.Some? && IsElse(tag.value.inner) {
      pos, falseBranch := ParseBlock(b, tag.value.next, [], true, depth + 1);
    }
    tag := ReadTag(b, pos);
    if tag.Some? && IsEndIf(tag.value.inner) {
      pos := tag.value.next;
    }
    node := If(condition, trueBranch, elifBranches, falseBranch);
  }

  function Parse(template: string): seq<Node> { BlockAt(template, 0, false, 0).nodes }

  // ---------------------------------------------------------------- every input is consumed

  /** A block ends at the end of the template or, inside a conditional, at a token left for it. */
  ghost predicate Ends(b: string, pos: nat, inside: bool) {
    pos == |b| || (inside && pos < |b| && TagAt(b, pos).Some? && IsStop(TagAt(b, pos).value.inner))
  }

  lemma {:induction false} BlockEnds(b: string, pos: nat, inside: bool, depth: nat)
    requires pos <= |b|
    ensures Ends(b, BlockAt(b, pos, inside, depth).next, inside)
    decreases |b| - pos
  {
    hide TagAt, IsStop, IsVar, IfAt, VarOf, Lower, Trim;
    if pos < |b| {
      if b[pos] != '{' {
        BlockEnds(b, RunEnd(b, pos), inside, depth);
      } else if TagAt(b, pos).None? {
        BlockEnds(b, pos + 1, inside, depth);
      } else {
        var Tag(inner, next) := TagAt(b, pos).value;
        if !IsStop(inner) || !inside {
          BlockEnds(b, next, inside, depth);
          if IsIf(inner) && depth < MAX_RECURSION_DEPTH {
            BlockEnds(b, IfAt(b, next, Trim(inner[3..]), depth).next, inside, depth);
          }
        }
      }
    }
  }

  // ---------------------------------------------------------------- printing

  function PrintModifier(m: Modifier): string {
    m.name + if m.arg.Some? then "(" + m.arg.value + ")" else ""
  }

  function PrintModifiers(ms: seq<Modifier>): string {
    if ms == [] then "" else "|" + PrintModifier(ms[0]) + PrintModifiers(ms[1..])
  }

  function PrintVar(path: string, ms: seq<Modifier>): string { path + PrintModifiers(ms) }

  function Braced(inner: string): string { "{" + inner + "}" }

  function PrintNode(n: Node): string
    decreases n, 1
  {
    match n
    case Text(text) => text
    case Var(path, ms) => Braced(PrintVar(path, ms))
    case If(c, _, _, _) => Braced("if " + c) + PrintBranches(n)
  }

  function PrintBranches(n: Node): string
    requires n.If?
    decreases n, 0
  {
    PrintNodes(n.trueBranch) + PrintElifs(n.elifBranches) + PrintElse(n.falseBranch) + Braced("/if")
  }

  function PrintNodes(nodes: seq<Node>): string
    decreases nodes, 0
  {
    if nodes == [] then "" else PrintNode(nodes[0]) + PrintNodes(nodes[1..])
  }

  function PrintElifs(es: seq<Branch>): string
    decreases es, 0
  {
    if es == [] then ""
    else Braced("elif " + es[0].condition) + PrintNodes(es[0].body) + PrintElifs(es[1..])
  }

  function PrintElse(f: seq<Node>): string
    decreases f, 1
  {
    if f == [] then "" else Braced("else") + PrintNodes(f)
  }

  // ---------------------------------------------------------------- canonical trees

  /** Braces are balanced, `depth` - 1 of them open at the start. */
  predicate Nested(s: string, depth: nat)
    requires depth >= 1
  {
    if s == "" then depth == 1
    else if s[0] == '{' then Nested(s[1..], depth + 1)
    else if s[0] == '}' then depth > 1 && Nested(s[1..], depth - 1)
    else Nested(s[1..], depth)
  }

  /** The state behind `s`, if no delimiter splits it. */
  function Scan(s: string, delim: char, sc: Scanner): Option<Scanner> {
    if s == "" then Some(sc)
    else if Splits(sc, s[0], delim) then None
    else Scan(s[1..], delim, Advance(sc, s[0]))
  }

  /** Quotes and parentheses are closed, and every delimiter is inside of them. */
  predicate Closed(s: string, delim: char) { Scan(s, delim, OUTSIDE) == Some(OUTSIDE) }

  predicate CanonModifier(m: Modifier) {
    && Trimmed(m.name) && Lower(m.name) == m.name && Closed(PrintModifier(m), '|')
    && match m.arg
       case None => '(' !in m.name || m.name[|m.name| - 1] != ')'
       case Some(arg) => '(' !in m.name && Trimmed(arg)
  }

  predicate CanonVar(path: string, ms: seq<Modifier>) {
    && IsVar(path) && Trimmed(path) && Closed(path, '|')
    && |ms| <= MAX_MODIFIERS_CHAIN && (forall m :: m in ms ==> CanonModifier(m))
    && var inner := PrintVar(path, ms); Nested(inner, 1) && !IsStop(inner) && !IsIf(inner)
  }

  predicate CanonCondition(c: string) { c != "" && Trimmed(c) && Nested(c, 1) }

  predicate Run(t: string) { t != "" && '{' !in t }

  /** Text in braces that is no tag, or an `if` too deep to be one. */
  predicate Literal(t: string, room: nat) {
    && |t| >= 2 && t == Braced(t[1..|t| - 1]) && Nested(t[1..|t| - 1], 1)
    && var inner := Trim(t[1..|t| - 1]);
      !IsStop(inner) && if IsIf(inner) then room == 0 else !IsVar(inner)
  }

  predicate RunNode(n: Node) { n.Text? && Run(n.text) }

  /** What the parser makes of a template, where `room` more conditionals may be nested, if all braces and
      conditionals are closed, and quotes and parentheses within tags as well; TemplateTidy.CanonIff says exactly
      of which. */
  predicate CanonNodes(nodes: seq<Node>, room: nat)
    decreases nodes, 0
  {
    nodes == [] ||
    (CanonNode(nodes[0], room) && CanonNodes(nodes[1..], room)
     && (RunNode(nodes[0]) && |nodes| > 1 ==> !RunNode(nodes[1])))
  }

  predicate CanonNode(n: Node, room: nat)
    decreases n, 0
  {
    match n
    case Text(t) => Run(t) || Literal(t, room)
    case Var(path, ms) => CanonVar(path, ms)
    case If(c, t, es, f) =>
      && room > 0 && CanonCondition(c)
      && CanonNodes(t, room - 1) && CanonBranches(es, room - 1) && CanonNodes(f, room - 1)
  }

  predicate CanonBranches(es: seq<Branch>, room: nat)
    decreases es, 0
  {
    es == [] || (CanonCondition(es[0].condition) && CanonNodes(es[0].body, room) && CanonBranches(es[1..], room))
  }

  // ---------------------------------------------------------------- tags read back

  /** `b` has `s` at `pos`. */
  ghost predicate At(b: string, pos: nat, s: string) {
    pos + |s| <= |b| && b[pos..pos + |s|] == s
  }

  lemma AtSplit(b: string, pos: nat, s: string, t: string)
    requires At(b, pos, s + t)
    ensures At(b, pos, s) && At(b, pos + |s|, t)
  {
    assert b[pos..pos + |s|] == (s + t)[..|s|];
    assert b[pos + |s|..pos + |s| + |t|] == (s + t)[|s|..];
  }

  lemma {:induction false} CloseBack(b: string, pos: nat, s: string, depth: nat)
    requires depth >= 1 && At(b, pos, s + "}") && Nested(s, depth)
    ensures CloseFrom(b, pos, depth) == Some(pos + |s|)
    decreases s
  {
    assert b[pos..pos + |s| + 1] == s + "}";
    if s == "" {
      assert b[pos] == '}';
    } else {
      assert b[pos] == s[0];
      assert s + "}" == [s[0]] + (s[1..] + "}");
      AtSplit(b, pos, [s[0]], s[1..] + "}");
      CloseBack(b, pos + 1, s[1..], if s[0] == '{' then depth + 1 else if s[0] == '}' then depth - 1 else depth);
    }
  }

  lemma TagBack(b: string, pos: nat, inner: string)
    requires At(b, pos, Braced(inner)) && Nested(inner, 1)
    ensures b[pos] == '{' && TagAt(b, pos) == Some(Tag(Trim(inner), pos + |Braced(inner)|))
  {
    hide Trim, Nested, CloseFrom;
    assert Braced(inner) == "{" + (inner + "}");
    AtSplit(b, pos, "{", inner + "}");
    AtSplit(b, pos + 1, inner, "}");
    CloseBack(b, pos + 1, inner, 1);
  }

  lemma TrimTrimmed(s: string)
    requires Trimmed(s)
    ensures Trim(s) == s
  {}

  lemma {:induction false} NestedPlain(s: string, t: string)
    requires '{' !in s && '}' !in s && Nested(t, 1)
    ensures Nested(s + t, 1)
  {
    if s == "" {
      assert s + t == t;
    } else {
      assert (s + t)[1..] == s[1..] + t;
      NestedPlain(s[1..], t);
    }
  }

  lemma KeepsTrimmed(s: string, c: string)
    requires s != "" && !Space(s[0]) && c != "" && Trimmed(c)
    ensures Trim(s + c) == s + c
  {
    assert (s + c)[|s + c| - 1] == c[|c| - 1];
    TrimTrimmed(s + c);
  }

  lemma IfWord(c: string)
    requires CanonCondition(c)
    ensures var inner := "if " + c;
      Nested(inner, 1) && Trim(inner) == inner && IsIf(inner) && !IsStop(inner) && Trim(inner[3..]) == c
  {
    hide Trim, Nested;
    var inner := "if " + c;
    NestedPlain("if ", c);
    KeepsTrimmed("if ", c);
    assert Lower("if ") == "if ";
    assert inner[..3] == "if " && inner[3..] == c;
    TrimTrimmed(c);
    assert Lower(inner)[0] == 'i';
    assert |inner| > 5 ==> Lower(inner[..5])[0] == 'i';
  }

  lemma ElifWord(c: string)
    requires CanonCondition(c)
    ensures var inner := "elif " + c;
      Nested(inner, 1) && Trim(inner) == inner && IsElif(inner) && IsStop(inner) && Trim(inner[5..]) == c
  {
    hide Trim, Nested;
    var inner := "elif " + c;
    NestedPlain("elif ", c);
    KeepsTrimmed("elif ", c);
    assert Lower("elif ") == "elif ";
    assert inner[..5] == "elif " && inner[5..] == c;
    TrimTrimmed(c);
  }

  lemma NestedNothing()
    ensures Nested("", 1)
  {}

  lemma OtherWords()
    ensures Nested("else", 1) && Trim("else") == "else" && IsElse("else") && !IsElif("else") && IsStop("else")
    ensures Nested("/if", 1) && Trim("/if") == "/if" && IsEndIf("/if") && !IsElif("/if") && !IsElse("/if")
    ensures IsStop("/if")
  {
    hide Trim, Nested;
    assert "else" == "else" + "" && "/if" == "/if" + "";
    NestedNothing();
    NestedPlain("else", "");
    NestedPlain("/if", "");
    TrimTrimmed("else");
    TrimTrimmed("/if");
    assert Lower("else") == "else" && Lower("/if") == "/if";
  }

  // ---------------------------------------------------------------- variables read back

  function Join(parts: seq<string>, delim: char): string
    requires parts != []
  {
    if |parts| == 1 then parts[0] else parts[0] + [delim] + Join(parts[1..], delim)
  }

  lemma {:induction false} SplitPart(part: string, rest: string, delim: char, sc: Scanner, cur: string)
    requires Scan(part, delim, sc).Some?
    ensures Split(part + rest, delim, sc, cur) == Split(rest, delim, Scan(part, delim, sc).value, cur + part)
    decreases part
  {
    if part == "" {
      assert part + rest == rest && cur + part == cur;
    } else {
      assert (part + rest)[1..] == part[1..] + rest;
      assert cur + [part[0]] + part[1..] == cur + part;
      SplitPart(part[1..], rest, delim, Advance(sc, part[0]), cur + [part[0]]);
    }
  }

  /** Nothing is lost: the parts, put together again, are the text. */
  lemma {:induction false} SplitKeeps(s: string, delim: char, sc: Scanner, cur: string)
    ensures Join(Split(s, delim, sc, cur), delim) == cur + s
    decreases s
  {
    if s != "" {
      if Splits(sc, s[0], delim) {
        SplitKeeps(s[1..], delim, sc, "");
        var rest := Split(s[1..], delim, sc, "");
        assert ([cur] + rest)[1..] == rest;
        assert s == [delim] + s[1..];
      } else {
        SplitKeeps(s[1..], delim, Advance(sc, s[0]), cur + [s[0]]);
        assert s == [s[0]] + s[1..];
      }
    }
  }

  lemma {:induction false} ScanMore(s: string, c: char, delim: char, sc: Scanner)
    requires Scan(s, delim, sc).Some?
    ensures Scan(s + [c], delim, sc) ==
      var mid := Scan(s, delim, sc).value; if Splits(mid, c, delim) then None else Some(Advance(mid, c))
    decreases s
  {
    if s == "" {
      assert s + [c] == [c] && [c][1..] == "";
    } else {
      assert (s + [c])[1..] == s[1..] + [c];
      ScanMore(s[1..], c, delim, Advance(sc, s[0]));
    }
  }

  /** Every part but the last is closed, and none contains a delimiter that would split it. */
  lemma {:induction false} SplitCloses(s: string, delim: char, sc: Scanner, cur: string)
    requires Scan(cur, delim, OUTSIDE) == Some(sc)
    ensures var parts := Split(s, delim, sc, cur);
      && (forall i :: 0 <= i < |parts| - 1 ==> Closed(parts[i], delim))
      && Scan(parts[|parts| - 1], delim, OUTSIDE).Some?
    decreases s
  {
    if s != "" {
      if Splits(sc, s[0], delim) {
        SplitCloses(s[1..], delim, sc, "");
      } else {
        ScanMore(cur, s[0], delim, OUTSIDE);
        SplitCloses(s[1..], delim, Advance(sc, s[0]), cur + [s[0]]);
      }
    }
  }

  /** The only way to take a text apart like that: closed parts joined are split where they were joined. */
  lemma {:induction false} SplitJoined(parts: seq<string>, delim: char)
    requires parts != [] && delim !in "'\"()"
    requires forall i :: 0 <= i < |parts| - 1 ==> Closed(parts[i], delim)
    requires Scan(parts[|parts| - 1], delim, OUTSIDE).Some?
    ensures Split(Join(parts, delim), delim, OUTSIDE, "") == parts
    decreases |parts|
  {
    hide Scan, Split;
    var first := parts[0];
    if |parts| == 1 {
      assert first + "" == first && "" + first == first;
      SplitPart(first, "", delim, OUTSIDE, "");
      SplitNothing(delim, Scan(first, delim, OUTSIDE).value, first);
    } else {
      var rest := Join(parts[1..], delim);
      assert Join(parts, delim) == first + ([delim] + rest) && "" + first == first;
      SplitPart(first, [delim] + rest, delim, OUTSIDE, "");
      SplitHere(delim, rest, first);
      SplitJoined(parts[1..], delim);
    }
  }

  lemma SplitNothing(delim: char, sc: Scanner, cur: string)
    ensures Split("", delim, sc, cur) == [cur]
  {}

  lemma SplitHere(delim: char, rest: string, cur: string)
    requires delim !in "'\"()"
    ensures Split([delim] + rest, delim, OUTSIDE, cur) == [cur] + Split(rest, delim, OUTSIDE, "")
  {
    assert ([delim] + rest)[1..] == rest;
  }

  function Texts(ms: seq<Modifier>): (r: seq<string>)
    ensures |r| == |ms|
  {
    if ms == [] then [] else [PrintModifier(ms[0])] + Texts(ms[1..])
  }

  lemma {:induction false} JoinTexts(path: string, ms: seq<Modifier>)
    ensures Join([path] + Texts(ms), '|') == PrintVar(path, ms)
    decreases ms
  {
    if ms == [] {
      assert Texts(ms) == [] && PrintModifiers(ms) == "";
    } else {
      var m := PrintModifier(ms[0]);
      JoinTexts(m, ms[1..]);
      assert ([path] + Texts(ms))[1..] == [m] + Texts(ms[1..]);
    }
  }

  lemma {:induction false} FirstIndex(s: string, c: char, rest: string)
    requires c !in s
    ensures IndexOf(s + [c] + rest, c) == Some(|s|)
    decreases s
  {
    if s == "" {
      assert s + [c] + rest == [c] + rest;
    } else {
      assert (s + [c] + rest)[1..] == s[1..] + [c] + rest;
      FirstIndex(s[1..], c, rest);
    }
  }

  ghost predicate EndsInk(s: string) { s != "" ==> !Space(s[|s| - 1]) }

  lemma ModifierBack(m: Modifier)
    requires CanonModifier(m)
    ensures ParseModifier(PrintModifier(m)) == m && EndsInk(PrintModifier(m))
  {
    hide Trim, Lower, Closed, IndexOf;
    var text := PrintModifier(m);
    match m.arg
    case None =>
      assert text == m.name;
      TrimTrimmed(text);
    case Some(arg) =>
      assert text == m.name + "(" + (arg + ")");
      FirstIndex(m.name, '(', arg + ")");
      assert text[|text| - 1] == ')';
      assert text[..|m.name|] == m.name && text[|m.name| + 1..|text| - 1] == arg;
      assert m.name != "" ==> text[0] == m.name[0];
      TrimTrimmed(text);
      TrimTrimmed(m.name);
      TrimTrimmed(arg);
  }

  lemma {:induction false} ModifiersBack(ms: seq<Modifier>, room: nat)
    requires |ms| <= room && forall m :: m in ms ==> CanonModifier(m)
    ensures ParseModifiers(Texts(ms), room) == ms
    decreases ms
  {
    hide CanonModifier, PrintModifier, ParseModifier;
    if ms != [] {
      ModifiersBack(ms[1..], room - 1);
      ModifierBack(ms[0]);
      assert Texts(ms)[1..] == Texts(ms[1..]);
    }
  }

  lemma {:induction false} ModifiersEnd(ms: seq<Modifier>)
    requires forall m :: m in ms ==> CanonModifier(m)
    ensures EndsInk(PrintModifiers(ms))
    decreases ms
  {
    hide CanonModifier, PrintModifier;
    if ms != [] {
      ModifiersEnd(ms[1..]);
      ModifierBack(ms[0]);
      var (a, c) := (PrintModifier(ms[0]), PrintModifiers(ms[1..]));
      BarEnds();
      EndsInkOf("|", a);
      EndsInkOf("|" + a, c);
    }
  }

  lemma {:induction false} TextsClosed(ms: seq<Modifier>)
    requires forall m :: m in ms ==> CanonModifier(m)
    ensures forall t :: t in Texts(ms) ==> Closed(t, '|')
    decreases ms
  {
    hide PrintModifier, Closed;
    if ms != [] {
      TextsClosed(ms[1..]);
      assert CanonModifier(ms[0]);
    }
  }

  lemma BarEnds()
    ensures EndsInk("|")
  {}

  lemma EndsInkOf(s: string, t: string)
    requires EndsInk(s) && EndsInk(t)
    ensures EndsInk(s + t)
  {
    if t != "" {
      assert (s + t)[|s + t| - 1] == t[|t| - 1];
    } else {
      assert s + t == s;
    }
  }

  lemma ClosedScans(s: string)
    requires Closed(s, '|')
    ensures Scan(s, '|', OUTSIDE).Some?
  {}

  /** `parse_var` undoes the printing of a variable. */
  lemma VarBack(path: string, ms: seq<Modifier>)
    requires CanonVar(path, ms)
    ensures VarOf(PrintVar(path, ms)) == Var(path, ms)
    ensures Trim(PrintVar(path, ms)) == PrintVar(path, ms) && IsVar(PrintVar(path, ms))
  {
    hide Closed, CanonModifier, Trim, IsStop, IsIf, Nested, Join, Split, ParseModifiers, PrintModifiers, Texts;
    var parts := [path] + Texts(ms);
    ModifiersBack(ms, MAX_MODIFIERS_CHAIN);
    TextsClosed(ms);
    JoinTexts(path, ms);
    forall p | p in parts ensures Closed(p, '|') {
      assert p == path || p in Texts(ms);
    }
    ClosedScans(parts[|parts| - 1]);
    SplitJoined(parts, '|');
    assert parts[1..] == Texts(ms);
    TrimTrimmed(path);
    var inner := PrintVar(path, ms);
    assert inner[0] == path[0];
    ModifiersEnd(ms);
    EndsInkOf(path, PrintModifiers(ms));
    TrimTrimmed(inner);
  }

  // ---------------------------------------------------------------- blocks read back

  lemma {:induction false} RunBack(b: string, pos: nat, t: string)
    requires At(b, pos, t) && '{' !in t && (pos + |t| == |b| || b[pos + |t|] == '{')
    ensures RunEnd(b, pos) == pos + |t|
    decreases t
  {
    if t != "" {
      assert b[pos] == b[pos..pos + |t|][0] == t[0];
      assert t == [t[0]] + t[1..];
      AtSplit(b, pos, [t[0]], t[1..]);
      RunBack(b, pos + 1, t[1..]);
    }
  }

  lemma VarIsNoTag(path: string, ms: seq<Modifier>)
    requires CanonVar(path, ms)
    ensures var inner := PrintVar(path, ms); Nested(inner, 1) && !IsStop(inner) && !IsIf(inner)
  {}

  lemma TextBack(b: string, pos: nat, t: string, inside: bool, depth: nat)
    requires At(b, pos, t) && depth <= MAX_RECURSION_DEPTH
    requires Run(t) || Literal(t, MAX_RECURSION_DEPTH - depth)
    requires Run(t) ==> pos + |t| == |b| || b[pos + |t|] == '{'
    ensures BlockAt(b, pos, inside, depth) == Before(Text(t), BlockAt(b, pos + |t|, inside, depth))
  {
    hide TagAt, IsStop, IsIf, IsVar, IfAt, VarOf, Nested, Trim, RunEnd;
    assert b[pos..pos + |t|] == t;
    assert b[pos] == t[0];
    if Run(t) {
      RunBack(b, pos, t);
    } else {
      TagBack(b, pos, t[1..|t| - 1]);
    }
  }

  lemma VarNodeBack(b: string, pos: nat, path: string, ms: seq<Modifier>, inside: bool, depth: nat)
    requires CanonVar(path, ms) && At(b, pos, Braced(PrintVar(path, ms)))
    ensures BlockAt(b, pos, inside, depth)
         == Before(Var(path, ms), BlockAt(b, pos + |Braced(PrintVar(path, ms))|, inside, depth))
  {
    hide TagAt, IsStop, IsIf, IsVar, IfAt, VarOf, Nested, Trim, RunEnd, PrintVar, CanonVar, Braced, Before;
    VarBack(path, ms);
    VarIsNoTag(path, ms);
    TagBack(b, pos, PrintVar(path, ms));
  }

  /** A node other than a conditional is read back. */
  lemma LeafBack(b: string, pos: nat, n: Node, inside: bool, depth: nat)
    requires !n.If? && At(b, pos, PrintNode(n)) && depth <= MAX_RECURSION_DEPTH
    requires CanonNode(n, MAX_RECURSION_DEPTH - depth)
    requires RunNode(n) ==> pos + |PrintNode(n)| == |b| || b[pos + |PrintNode(n)|] == '{'
    ensures BlockAt(b, pos, inside, depth) == Before(n, BlockAt(b, pos + |PrintNode(n)|, inside, depth))
  {
    hide BlockAt, Before, At, Run, Literal, CanonVar, PrintVar, Braced;
    match n
    case Text(t) => TextBack(b, pos, t, inside, depth);
    case Var(path, ms) => VarNodeBack(b, pos, path, ms, inside, depth);
  }

  /** A token that a block inside a conditional leaves to its caller, other than `elif`. */
  ghost predicate ClosesBranches(b: string, pos: nat) {
    && pos < |b| && TagAt(b, pos).Some?
    && IsStop(TagAt(b, pos).value.inner) && !IsElif(TagAt(b, pos).value.inner)
  }

  lemma NotRunStarts(n: Node, room: nat)
    requires CanonNode(n, room) && !RunNode(n)
    ensures PrintNode(n) != "" && PrintNode(n)[0] == '{'
  {}

  /** What follows a run is an opening brace or the end. */
  lemma RunFollowed(b: string, pos: nat, nodes: seq<Node>, room: nat, inside: bool)
    requires At(b, pos, PrintNodes(nodes)) && CanonNodes(nodes, room)
    requires Ends(b, pos + |PrintNodes(nodes)|, inside)
    requires nodes != [] ==> !RunNode(nodes[0])
    ensures pos == |b| || b[pos] == '{'
  {
    hide IsStop, CanonNode, RunNode, PrintNode;
    if nodes != [] {
      NotRunStarts(nodes[0], room);
      AtSplit(b, pos, PrintNode(nodes[0]), PrintNodes(nodes[1..]));
    }
  }

  lemma EmptyBack(b: string, pos: nat, inside: bool, depth: nat)
    requires pos <= |b| && Ends(b, pos, inside)
    ensures BlockAt(b, pos, inside, depth) == Block([], pos)
  {
    hide IsStop, IsIf, IsVar, IfAt, VarOf, CloseFrom, Trim, RunEnd;
  }

  /** The nodes printed at `pos` are what `parse_block` reads there. */
  lemma {:induction false} BlockBack(b: string, pos: nat, nodes: seq<Node>, inside: bool, depth: nat)
    requires depth <= MAX_RECURSION_DEPTH && CanonNodes(nodes, MAX_RECURSION_DEPTH - depth)
    requires At(b, pos, PrintNodes(nodes)) && Ends(b, pos + |PrintNodes(nodes)|, inside)
    ensures BlockAt(b, pos, inside, depth) == Block(nodes, pos + |PrintNodes(nodes)|)
    decreases nodes, 0
  {
    hide Ends, BlockAt, PrintNode, CanonNode, RunNode;
    if nodes == [] {
      EmptyBack(b, pos, inside, depth);
    } else {
      var n, rest := nodes[0], nodes[1..];
      AtSplit(b, pos, PrintNode(n), PrintNodes(rest));
      var next := pos + |PrintNode(n)|;
      BlockBack(b, next, rest, inside, depth);
      assert [n] + rest == nodes;
      if n.If? {
        IfBack(b, pos, n, inside, depth);
      } else {
        if RunNode(n) {
          RunFollowed(b, next, rest, MAX_RECURSION_DEPTH - depth, inside);
        }
        LeafBack(b, pos, n, inside, depth);
      }
    }
  }

  lemma IfHere(b: string, pos: nat, inner: string, next: nat, inside: bool, depth: nat)
    requires pos < |b| && b[pos] == '{' && pos < next <= |b| && TagAt(b, pos) == Some(Tag(inner, next))
    requires IsIf(inner) && !IsStop(inner) && depth < MAX_RECURSION_DEPTH
    ensures var t := IfAt(b, next, Trim(inner[3..]), depth);
      BlockAt(b, pos, inside, depth) == Before(t.nodes[0], BlockAt(b, t.next, inside, depth))
  {
    hide TagAt, IsStop, IfAt, Trim;
  }

  lemma PrintOpening(n: Node)
    requires n.If?
    ensures PrintNode(n) == Braced("if " + n.condition) + PrintBranches(n)
  {
    hide PrintBranches, Braced;
  }

  lemma {:induction false} IfBack(b: string, pos: nat, n: Node, inside: bool, depth: nat)
    requires n.If? && depth <= MAX_RECURSION_DEPTH && CanonNode(n, MAX_RECURSION_DEPTH - depth)
    requires At(b, pos, PrintNode(n))
    ensures BlockAt(b, pos, inside, depth) == Before(n, BlockAt(b, pos + |PrintNode(n)|, inside, depth))
    decreases n, 1
  {
    hide TagAt, IsStop, IsIf, IsVar, IfAt, VarOf, CanonNodes, CanonBranches, PrintBranches, Trim, BlockAt, PrintNode;
    var open := Braced("if " + n.condition);
    PrintOpening(n);
    IfWord(n.condition);
    AtSplit(b, pos, open, PrintBranches(n));
    TagBack(b, pos, "if " + n.condition);
    BranchesBack(b, pos + |open|, n, depth);
    IfHere(b, pos, "if " + n.condition, pos + |open|, inside, depth);
  }

  lemma BranchesAt(b: string, pos: nat, n: Node)
    requires n.If? && At(b, pos, PrintBranches(n))
    ensures var t, es, f := PrintNodes(n.trueBranch), PrintElifs(n.elifBranches), PrintElse(n.falseBranch);
      && At(b, pos, t) && At(b, pos + |t|, es) && At(b, pos + |t| + |es|, f)
      && At(b, pos + |t| + |es| + |f|, Braced("/if"))
      && |PrintBranches(n)| == |t| + |es| + |f| + |Braced("/if")|
  {
    hide PrintNodes, PrintElifs, PrintElse, Braced, At;
    var t, es, f, end := PrintNodes(n.trueBranch), PrintElifs(n.elifBranches), PrintElse(n.falseBranch), Braced("/if");
    assert PrintBranches(n) == t + (es + (f + end));
    AtSplit(b, pos, t, es + (f + end));
    AtSplit(b, pos + |t|, es, f + end);
    AtSplit(b, pos + |t| + |es|, f, end);
  }

  lemma ClosesHere(b: string, pos: nat)
    requires At(b, pos, Braced("/if"))
    ensures ClosesBranches(b, pos) && !IsElse(TagAt(b, pos).value.inner)
    ensures EndIfAt(b, pos) == pos + |Braced("/if")|
  {
    hide TagAt, IsStop, IsElif, IsElse, IsEndIf, Trim, Braced, Nested;
    OtherWords();
    TagBack(b, pos, "/if");
  }

  lemma {:induction false} BranchesBack(b: string, pos: nat, n: Node, depth: nat)
    requires n.If? && depth < MAX_RECURSION_DEPTH && CanonNode(n, MAX_RECURSION_DEPTH - depth)
    requires At(b, pos, PrintBranches(n))
    ensures IfAt(b, pos, n.condition, depth) == Block([n], pos + |PrintBranches(n)|)
    decreases n, 0
  {
    hide TagAt, IsElse, BlockAt, ElifsAt, ElseAt, EndIfAt, CanonNodes, CanonBranches, PrintBranches, PrintNodes, PrintElifs,
         PrintElse, Braced, Ends, ClosesBranches, At;
    var t, es, f := PrintNodes(n.trueBranch), PrintElifs(n.elifBranches), PrintElse(n.falseBranch);
    BranchesAt(b, pos, n);
    ClosesHere(b, pos + |t| + |es| + |f|);
    ElseBack(b, pos + |t| + |es|, n.falseBranch, depth);
    ElifsBack(b, pos + |t|, n.elifBranches, depth);
    BlockBack(b, pos, n.trueBranch, true, depth + 1);
  }

  lemma {:induction false} ElseBack(b: string, pos: nat, f: seq<Node>, depth: nat)
    requires depth < MAX_RECURSION_DEPTH && CanonNodes(f, MAX_RECURSION_DEPTH - depth - 1)
    requires At(b, pos, PrintElse(f))
    requires var end := pos + |PrintElse(f)|; ClosesBranches(b, end) && !IsElse(TagAt(b, end).value.inner)
    ensures ElseAt(b, pos, depth) == Block(f, pos + |PrintElse(f)|) && ClosesBranches(b, pos)
    decreases f, 1
  {
    hide TagAt, IsStop, IsElse, IsElif, BlockAt, CanonNodes, PrintNodes, Trim;
    if f != [] {
      OtherWords();
      AtSplit(b, pos, Braced("else"), PrintNodes(f));
      TagBack(b, pos, "else");
      BlockBack(b, pos + |Braced("else")|, f, true, depth + 1);
    }
  }

  lemma StopEnds(b: string, pos: nat)
    requires pos < |b| && TagAt(b, pos).Some? && IsStop(TagAt(b, pos).value.inner)
    ensures Ends(b, pos, true)
  {}

  lemma ElifsSplit(b: string, pos: nat, es: seq<Branch>)
    requires es != [] && At(b, pos, PrintElifs(es))
    ensures var open, body, more :=
        Braced("elif " + es[0].condition), PrintNodes(es[0].body), PrintElifs(es[1..]);
      && At(b, pos, open) && At(b, pos + |open|, body) && At(b, pos + |open| + |body|, more)
      && |PrintElifs(es)| == |open| + |body| + |more|
  {
    hide PrintNodes, Braced, At;
    var open, body, more := Braced("elif " + es[0].condition), PrintNodes(es[0].body), PrintElifs(es[1..]);
    assert PrintElifs(es) == open + (body + more);
    AtSplit(b, pos, open, body + more);
    AtSplit(b, pos + |open|, body, more);
  }

  lemma {:induction false} ElifsBack(b: string, pos: nat, es: seq<Branch>, depth: nat)
    requires depth < MAX_RECURSION_DEPTH && CanonBranches(es, MAX_RECURSION_DEPTH - depth - 1)
    requires At(b, pos, PrintElifs(es)) && ClosesBranches(b, pos + |PrintElifs(es)|)
    ensures ElifsAt(b, pos, depth) == Branches(es, pos + |PrintElifs(es)|) && Ends(b, pos, true)
    decreases es, 0
  {
    hide TagAt, IsStop, IsElif, BlockAt, CanonNodes, CanonCondition, PrintNodes, Trim, Nested, Lower, Braced, Ends, At;
    if es == [] {
      StopEnds(b, pos);
    } else {
      var e, rest := es[0], es[1..];
      var open, body := Braced("elif " + e.condition), PrintNodes(e.body);
      ElifsSplit(b, pos, es);
      ElifWord(e.condition);
      TagBack(b, pos, "elif " + e.condition);
      StopEnds(b, pos);
      ElifsBack(b, pos + |open| + |body|, rest, depth);
      BlockBack(b, pos + |open|, e.body, true, depth + 1);
      assert es == [Branch(e.condition, e.body)] + rest;
    }
  }

  /** Parsing undoes printing, for every tree nested at most MAX_RECURSION_DEPTH deep. */
  lemma ParsePrinted(nodes: seq<Node>)
    requires CanonNodes(nodes, MAX_RECURSION_DEPTH)
    ensures Parse(PrintNodes(nodes)) == nodes
  {
    hide CanonNodes, PrintNodes, BlockAt;
    BlockBack(PrintNodes(nodes), 0, nodes, false, 0);
  }

  /** So a text stands for at most one canonical tree. */
  lemma PrintedOnce(a: seq<Node>, c: seq<Node>)
    requires CanonNodes(a, MAX_RECURSION_DEPTH) && CanonNodes(c, MAX_RECURSION_DEPTH)
    requires PrintNodes(a) == PrintNodes(c)
    ensures a == c
  {
    hide CanonNodes, PrintNodes, Parse;
    ParsePrinted(a);
    ParsePrinted(c);
  }

  // ---------------------------------------------------------------- rendering

  /** Conditionals are nested at most `room` deep. */
  predicate Within(nodes: seq<Node>, room: nat)
    decreases nodes, 0
  {
    nodes == [] || (WithinNode(nodes[0], room) && Within(nodes[1..], room))
  }

  predicate WithinNode(n: Node, room: nat)
    decreases n, 0
  {
    n.If? ==> room > 0 && Within(n.trueBranch, room - 1) && WithinAll(n.elifBranches, room - 1)
              && Within(n.falseBranch, room - 1)
  }

  predicate WithinAll(es: seq<Branch>, room: nat)
    decreases es, 0
  {
    es == [] || (Within(es[0].body, room) && WithinAll(es[1..], room))
  }

  lemma {:induction false} BlockWithin(b: string, pos: nat, inside: bool, depth: nat)
    requires pos <= |b| && depth <= MAX_RECURSION_DEPTH
    ensures Within(BlockAt(b, pos, inside, depth).nodes, MAX_RECURSION_DEPTH - depth)
    decreases |b| - pos, 0
  {
    hide TagAt, IsStop, IsVar, IfAt, VarOf, Lower, Trim, Within;
    var r := BlockAt(b, pos, inside, depth);
    NoneWithin(depth);
    if pos < |b| {
      if b[pos] != '{' {
        BlockWithin(b, RunEnd(b, pos), inside, depth);
        WithinCons(Text(b[pos..RunEnd(b, pos)]), BlockAt(b, RunEnd(b, pos), inside, depth).nodes, depth);
      } else if TagAt(b, pos).None? {
        BlockWithin(b, pos + 1, inside, depth);
        WithinCons(Text("{"), BlockAt(b, pos + 1, inside, depth).nodes, depth);
      } else {
        var Tag(inner, next) := TagAt(b, pos).value;
        if IsStop(inner) {
          BlockWithin(b, next, inside, depth);
        } else {
          if IsIf(inner) && depth < MAX_RECURSION_DEPTH {
            var t := IfAt(b, next, Trim(inner[3..]), depth);
            IfWithin(b, next, Trim(inner[3..]), depth);
            BlockWithin(b, t.next, inside, depth);
            WithinCons(t.nodes[0], BlockAt(b, t.next, inside, depth).nodes, depth);
          } else {
            BlockWithin(b, next, inside, depth);
            VarNotIf(inner);
            WithinCons(r.nodes[0], BlockAt(b, next, inside, depth).nodes, depth);
          }
        }
      }
    }
  }

  lemma NoneWithin(depth: nat)
    requires depth <= MAX_RECURSION_DEPTH
    ensures Within([], MAX_RECURSION_DEPTH - depth)
  {}

  lemma VarNotIf(inner: string)
    ensures VarOf(inner).Var?
  {}

  lemma WithinCons(n: Node, rest: seq<Node>, depth: nat)
    requires depth <= MAX_RECURSION_DEPTH
    requires WithinNode(n, MAX_RECURSION_DEPTH - depth) && Within(rest, MAX_RECURSION_DEPTH - depth)
    ensures Within([n] + rest, MAX_RECURSION_DEPTH - depth)
  {
    assert ([n] + rest)[1..] == rest;
  }

  lemma {:induction false} IfWithin(b: string, pos: nat, condition: string, depth: nat)
    requires pos <= |b| && depth < MAX_RECURSION_DEPTH
    ensures WithinNode(IfAt(b, pos, condition, depth).nodes[0], MAX_RECURSION_DEPTH - depth)
    decreases |b| - pos, 1
  {
    hide TagAt, IsElse, BlockAt, EndIfAt, ElifsAt, WithinAll;
    var t := BlockAt(b, pos, true, depth + 1);
    BlockWithin(b, pos, true, depth + 1);
    var e := ElifsAt(b, t.next, depth);
    ElifsWithin(b, t.next, depth);
    var tag := TagAt(b, e.next);
    if tag.Some? && IsElse(tag.value.inner) {
      BlockWithin(b, tag.value.next, true, depth + 1);
    }
  }

  lemma {:induction false} ElifsWithin(b: string, pos: nat, depth: nat)
    requires pos <= |b| && depth < MAX_RECURSION_DEPTH
    ensures WithinAll(ElifsAt(b, pos, depth).list, MAX_RECURSION_DEPTH - depth - 1)
    decreases |b| - pos, 0
  {
    hide TagAt, BlockAt, Within;
    var tag := TagAt(b, pos);
    if tag.Some? && IsElif(tag.value.inner) {
      var body := BlockAt(b, tag.value.next, true, depth + 1);
      BlockWithin(b, tag.value.next, true, depth + 1);
      ElifsWithin(b, body.next, depth);
      var list := ElifsAt(b, pos, depth).list;
      assert list[1..] == ElifsAt(b, body.next, depth).list;
    }
  }

  /** The context, seen through `eval_condition` and through `get_value` with `apply_modifiers`. */
  datatype Env = Env(holds: string -> bool, show: (string, seq<Modifier>) -> string)

  /** `render_nodes`. */
  function RenderNodes(nodes: seq<Node>, env: Env, depth: nat): string
    decreases nodes, 0
  {
    if nodes == [] then "" else RenderNode(nodes[0], env, depth) + RenderNodes(nodes[1..], env, depth)
  }

  /** `render_node`. */
  function RenderNode(n: Node, env: Env, depth: nat): string
    decreases n, 1
  {
    if depth > MAX_RECURSION_DEPTH then ""
    else match n
      case Text(t) => t
      case Var(path, ms) => env.show(path, ms)
      case If(c, t, es, f) =>
        if env.holds(c) then RenderNodes(t, env, depth + 1) else RenderElse(n, 0, env, depth)
  }

  /** The alternatives of a conditional from the `k`-th `elif` on. */
  function RenderElse(n: Node, k: nat, env: Env, depth: nat): string
    requires n.If? && k <= |n.elifBranches|
    decreases n, 0, |n.elifBranches| - k
  {
    if k == |n.elifBranches| then RenderNodes(n.falseBranch, env, depth + 1)
    else if env.holds(n.elifBranches[k].condition) then RenderNodes(n.elifBranches[k].body, env, depth + 1)
    else RenderElse(n, k + 1, env, depth)
  }

  /** The meaning of a template: no guard, no cursor, no depth. */
  function Meaning(nodes: seq<Node>, env: Env): string
    decreases nodes, 0
  {
    if nodes == [] then "" else MeaningOf(nodes[0], env) + Meaning(nodes[1..], env)
  }

  function MeaningOf(n: Node, env: Env): string
    decreases n, 1
  {
    match n
    case Text(t) => t
    case Var(path, ms) => env.show(path, ms)
    case If(c, t, es, f) => if env.holds(c) then Meaning(t, env) else Meaning(Chosen(n, 0, env), env)
  }

  predicate NoneHolds(n: Node, k: nat, end: nat, env: Env)
    requires n.If? && end <= |n.elifBranches|
  {
    forall i :: k <= i < end ==> !env.holds(n.elifBranches[i].condition)
  }

  predicate FirstHolds(n: Node, k: nat, i: nat, env: Env)
    requires n.If? && i < |n.elifBranches|
  {
    env.holds(n.elifBranches[i].condition) && NoneHolds(n, k, i, env)
  }

  /** The body under the first condition that holds, or the `else` body. */
  function Chosen(n: Node, k: nat, env: Env): (body: seq<Node>)
    requires n.If? && k <= |n.elifBranches|
    ensures (body == n.falseBranch && NoneHolds(n, k, |n.elifBranches|, env))
         || (exists i :: k <= i < |n.elifBranches| && FirstHolds(n, k, i, env) && body == n.elifBranches[i].body)
    decreases |n.elifBranches| - k
  {
    if k == |n.elifBranches| then n.falseBranch
    else if env.holds(n.elifBranches[k].condition) then
      assert FirstHolds(n, k, k, env);
      n.elifBranches[k].body
    else
      var later := Chosen(n, k + 1, env);
      assert forall i :: k + 1 <= i < |n.elifBranches| && FirstHolds(n, k + 1, i, env) ==> FirstHolds(n, k, i, env);
      later
  }

  lemma {:induction false} WithinBranch(es: seq<Branch>, room: nat, i: nat)
    requires WithinAll(es, room) && i < |es|
    ensures Within(es[i].body, room)
  {
    if i > 0 { WithinBranch(es[1..], room, i - 1); }
  }

  lemma {:induction false} GuardIdle(nodes: seq<Node>, env: Env, depth: nat)
    requires depth <= MAX_RECURSION_DEPTH && Within(nodes, MAX_RECURSION_DEPTH - depth)
    ensures RenderNodes(nodes, env, depth) == Meaning(nodes, env)
    decreases nodes, 1, 0
  {
    if nodes != [] {
      var n := nodes[0];
      GuardIdle(nodes[1..], env, depth);
      if n.If? {
        GuardIdle(n.trueBranch, env, depth + 1);
        GuardIdleElse(n, 0, env, depth);
      }
    }
  }

  lemma {:induction false} GuardIdleElse(n: Node, k: nat, env: Env, depth: nat)
    requires n.If? && k <= |n.elifBranches|
    requires depth < MAX_RECURSION_DEPTH && WithinNode(n, MAX_RECURSION_DEPTH - depth)
    ensures RenderElse(n, k, env, depth) == Meaning(Chosen(n, k, env), env)
    decreases n, 0, |n.elifBranches| - k
  {
    if k == |n.elifBranches| {
      GuardIdle(n.falseBranch, env, depth + 1);
    } else {
      WithinBranch(n.elifBranches, MAX_RECURSION_DEPTH - depth - 1, k);
      GuardIdle(n.elifBranches[k].body, env, depth + 1);
      GuardIdleElse(n, k + 1, env, depth);
    }
  }

  /** `render`, up to its removal of blank lines. */
  function Render(template: string, env: Env): string {
    if |template| > MAX_TEMPLATE_LEN then "" else RenderNodes(Parse(template), env, 0)
  }

  /** For every template: the parser takes it in whole, and the renderer's depth guard, which would
      drop text silently, never acts on what the parser built. */
  lemma RenderMeans(template: string, env: Env)
    ensures BlockAt(template, 0, false, 0).next == |template|
    ensures Render(template, env) == if |template| <= MAX_TEMPLATE_LEN then Meaning(Parse(template), env) else ""
  {
    hide BlockAt, RenderNodes, Meaning, Within;
    BlockEnds(template, 0, false, 0);
    BlockWithin(template, 0, false, 0);
    GuardIdle(Parse(template), env, 0);
  }

  /** A canonical tree, printed and rendered, shows its meaning. */
  lemma PrintedMeans(nodes: seq<Node>, env: Env)
    requires CanonNodes(nodes, MAX_RECURSION_DEPTH) && |PrintNodes(nodes)| <= MAX_TEMPLATE_LEN
    ensures Render(PrintNodes(nodes), env) == Meaning(nodes, env)
  {
    hide CanonNodes, PrintNodes, Render, Meaning, Parse;
    RenderMeans(PrintNodes(nodes), env);
    ParsePrinted(nodes);
  }

  // ---------------------------------------------------------------- what printed templates render to

  lemma {:induction false} CanonSplit(a: seq<Node>, c: seq<Node>, room: nat)
    requires CanonNodes(a + c, room)
    ensures CanonNodes(a, room) && CanonNodes(c, room)
    decreases a
  {
    hide CanonNode, RunNode;
    if a == [] {
      assert a + c == c;
    } else {
      assert (a + c)[1..] == a[1..] + c && (a + c)[0] == a[0];
      CanonSplit(a[1..], c, room);
      if |a| > 1 { assert (a + c)[1] == a[1]; }
    }
  }

  lemma {:induction false} PrintSplit(a: seq<Node>, c: seq<Node>)
    ensures PrintNodes(a + c) == PrintNodes(a) + PrintNodes(c)
    decreases a
  {
    hide PrintNode;
    if a == [] {
      assert a + c == c && "" + PrintNodes(c) == PrintNodes(c);
    } else {
      assert (a + c)[1..] == a[1..] + c && (a + c)[0] == a[0];
      PrintSplit(a[1..], c);
      assert PrintNode(a[0]) + (PrintNodes(a[1..]) + PrintNodes(c)) == PrintNode(a[0]) + PrintNodes(a[1..]) + PrintNodes(c);
    }
  }

  lemma {:induction false} MeaningSplit(a: seq<Node>, c: seq<Node>, env: Env)
    ensures Meaning(a + c, env) == Meaning(a, env) + Meaning(c, env)
    decreases a
  {
    hide MeaningOf;
    if a == [] {
      assert a + c == c && "" + Meaning(c, env) == Meaning(c, env);
    } else {
      assert (a + c)[1..] == a[1..] + c && (a + c)[0] == a[0];
      MeaningSplit(a[1..], c, env);
      var (x, y, z) := (MeaningOf(a[0], env), Meaning(a[1..], env), Meaning(c, env));
      assert x + (y + z) == x + y + z;
    }
  }

  /** Nodes printed one after another render one after another. */
  lemma RenderBoth(a: seq<Node>, c: seq<Node>, env: Env)
    requires CanonNodes(a + c, MAX_RECURSION_DEPTH) && |PrintNodes(a + c)| <= MAX_TEMPLATE_LEN
    ensures PrintNodes(a + c) == PrintNodes(a) + PrintNodes(c)
    ensures Render(PrintNodes(a) + PrintNodes(c), env) == Render(PrintNodes(a), env) + Render(PrintNodes(c), env)
  {
    hide CanonNodes, PrintNodes, Render, Meaning;
    CanonSplit(a, c, MAX_RECURSION_DEPTH);
    PrintSplit(a, c);
    MeaningSplit(a, c, env);
    PrintedMeans(a + c, env);
    PrintedMeans(a, env);
    PrintedMeans(c, env);
  }

  lemma PrintOne(n: Node)
    ensures PrintNodes([n]) == PrintNode(n)
  {
    assert [n][1..] == [] && PrintNodes([]) == "" && PrintNode(n) + "" == PrintNode(n);
  }

  lemma MeaningOne(n: Node, env: Env)
    ensures Meaning([n], env) == MeaningOf(n, env)
  {
    assert [n][1..] == [] && Meaning([], env) == "" && MeaningOf(n, env) + "" == MeaningOf(n, env);
  }

  /** Text renders as itself, and a variable as what is shown for it. */
  lemma RenderLeaf(n: Node, env: Env)
    requires CanonNodes([n], MAX_RECURSION_DEPTH) && |PrintNode(n)| <= MAX_TEMPLATE_LEN
    ensures n.Text? ==> PrintNode(n) == n.text && Render(n.text, env) == n.text
    ensures n.Var? ==>
      PrintNode(n) == Braced(PrintVar(n.path, n.modifiers))
      && Render(PrintNode(n), env) == env.show(n.path, n.modifiers)
  {
    hide CanonNodes, PrintNodes, Render, Meaning, PrintVar, Braced, RenderNodes;
    PrintOne(n);
    MeaningOne(n, env);
    PrintedMeans([n], env);
  }

  /** The alternative of a conditional that is rendered: its body if the condition holds, else what its first `elif`
      makes of it as a condition of its own, else the `else` body. */
  function Taken(c: string, t: seq<Node>, es: seq<Branch>, f: seq<Node>, env: Env): seq<Node> {
    if env.holds(c) then t
    else if es != [] then [If(es[0].condition, es[0].body, es[1..], f)]
    else f
  }

  lemma {:induction false} ChosenNext(n: Node, m: Node, k: nat, env: Env)
    requires n.If? && m.If? && n.elifBranches != [] && m.elifBranches == n.elifBranches[1..]
    requires m.falseBranch == n.falseBranch && k <= |m.elifBranches|
    ensures Chosen(n, k + 1, env) == Chosen(m, k, env)
    decreases |m.elifBranches| - k
  {
    if k < |m.elifBranches| { ChosenNext(n, m, k + 1, env); }
  }

  lemma IfMeans(c: string, t: seq<Node>, es: seq<Branch>, f: seq<Node>, env: Env)
    ensures Meaning([If(c, t, es, f)], env) == Meaning(Taken(c, t, es, f, env), env)
  {
    hide Meaning, Chosen;
    var n := If(c, t, es, f);
    MeaningOne(n, env);
    if !env.holds(c) {
      if es == [] {
        ChosenLast(n, env);
      } else {
        var m := If(es[0].condition, es[0].body, es[1..], f);
        ChosenFirst(n, env);
        ChosenNext(n, m, 0, env);
        MeaningOne(m, env);
      }
    }
  }

  lemma ChosenLast(n: Node, env: Env)
    requires n.If? && n.elifBranches == []
    ensures Chosen(n, 0, env) == n.falseBranch
  {}

  lemma ChosenFirst(n: Node, env: Env)
    requires n.If? && n.elifBranches != []
    ensures Chosen(n, 0, env) == if env.holds(n.elifBranches[0].condition) then n.elifBranches[0].body else Chosen(n, 1, env)
  {}

  /** The alternative taken is printed in less space than the conditional. */
  lemma TakenShorter(c: string, t: seq<Node>, es: seq<Branch>, f: seq<Node>, env: Env)
    ensures |PrintNodes(Taken(c, t, es, f, env))| <= |PrintNodes([If(c, t, es, f)])|
  {
    hide PrintNodes, PrintElifs, PrintElse;
    var n := If(c, t, es, f);
    PrintOne(n);
    PrintIf(n);
    ElseLength(f);
    if es != [] {
      var m := If(es[0].condition, es[0].body, es[1..], f);
      PrintOne(m);
      PrintIf(m);
      ElifsLength(es);
    }
  }

  lemma PrintIf(n: Node)
    requires n.If?
    ensures |PrintNode(n)| ==
      10 + |n.condition| + |PrintNodes(n.trueBranch)| + |PrintElifs(n.elifBranches)| + |PrintElse(n.falseBranch)|
  {
    hide PrintNodes, PrintElifs, PrintElse;
  }

  lemma ElseLength(f: seq<Node>)
    ensures |PrintNodes(f)| <= |PrintElse(f)|
  {}

  lemma ElifsLength(es: seq<Branch>)
    requires es != []
    ensures |PrintElifs(es)| == 7 + |es[0].condition| + |PrintNodes(es[0].body)| + |PrintElifs(es[1..])|
  {
    hide PrintNodes;
  }

  lemma NextCanon(c: string, t: seq<Node>, es: seq<Branch>, f: seq<Node>, room: nat)
    requires CanonNodes([If(c, t, es, f)], room) && es != []
    ensures CanonNodes([If(es[0].condition, es[0].body, es[1..], f)], room)
  {
    hide CanonCondition;
    var m := If(es[0].condition, es[0].body, es[1..], f);
    assert CanonNode([If(c, t, es, f)][0], room);
    assert [m][1..] == [] && CanonNode(m, room);
  }

  lemma TakenRenders(c: string, t: seq<Node>, es: seq<Branch>, f: seq<Node>, env: Env)
    requires CanonNodes([If(c, t, es, f)], MAX_RECURSION_DEPTH) && |PrintNodes([If(c, t, es, f)])| <= MAX_TEMPLATE_LEN
    requires CanonNodes(Taken(c, t, es, f, env), MAX_RECURSION_DEPTH)
    ensures Render(PrintNodes([If(c, t, es, f)]), env) == Render(PrintNodes(Taken(c, t, es, f, env)), env)
  {
    hide CanonNodes, PrintNodes, Render, Meaning, Taken;
    IfMeans(c, t, es, f, env);
    TakenShorter(c, t, es, f, env);
    PrintedMeans([If(c, t, es, f)], env);
    PrintedMeans(Taken(c, t, es, f, env), env);
  }

  /** A printed conditional renders as its printed body if the condition holds, else as its first `elif`
      printed as a condition of its own, else as its printed `else` body. Braces that are text only because
      conditionals may not be nested deeper are text no more in a body alone, hence the condition on that. */
  lemma RenderIf(c: string, t: seq<Node>, es: seq<Branch>, f: seq<Node>, env: Env)
    requires CanonNodes([If(c, t, es, f)], MAX_RECURSION_DEPTH) && |PrintNodes([If(c, t, es, f)])| <= MAX_TEMPLATE_LEN
    ensures env.holds(c) && CanonNodes(t, MAX_RECURSION_DEPTH) ==>
      Render(PrintNodes([If(c, t, es, f)]), env) == Render(PrintNodes(t), env)
    ensures !env.holds(c) && es != [] ==>
      Render(PrintNodes([If(c, t, es, f)]), env)
      == Render(PrintNodes([If(es[0].condition, es[0].body, es[1..], f)]), env)
    ensures !env.holds(c) && es == [] && CanonNodes(f, MAX_RECURSION_DEPTH) ==>
      Render(PrintNodes([If(c, t, es, f)]), env) == Render(PrintNodes(f), env)
  {
    hide CanonNodes, PrintNodes, Render;
    if !env.holds(c) && es != [] { NextCanon(c, t, es, f, MAX_RECURSION_DEPTH); }
    if CanonNodes(Taken(c, t, es, f, env), MAX_RECURSION_DEPTH) { TakenRenders(c, t, es, f, env); }
  }
}
