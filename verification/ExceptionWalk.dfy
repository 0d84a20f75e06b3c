/** The search through linked exceptions (python-deprecated/db/retry_utils.py). */
module ExceptionWalk {

  /** An exception as seen by the walk: what it links to, and whether it is a timeout of the queue pool. */
  datatype Node = Node(cause: seq<nat>, context: seq<nat>, members: seq<nat>, poolTimeout: bool)

  /** The exceptions by identity; `cause` and `context` have at most one. Links may form cycles. */
  type Graph = map<nat, Node>

  ghost predicate Closed(g: Graph) {
    forall n: nat :: n in g ==> forall k :: k in Links(g[n]) ==> k in g
  }

  function Links(n: Node): (r: seq<nat>)
    ensures forall k :: k in r <==> k in n.cause || k in n.context || k in n.members
  {
    n.cause + n.context + n.members
  }

  /** A path of links. */
  ghost predicate Path(g: Graph, p: seq<nat>) {
    && p != [] && (forall n :: n in p ==> n in g)
    && forall i :: 0 <= i < |p| - 1 ==> p[i + 1] in Links(g[p[i]])
  }

  ghost predicate Reachable(g: Graph, start: nat, n: nat) {
    exists p :: Path(g, p) && p[0] == start && p[|p| - 1] == n
  }

  lemma ReachOn(g: Graph, start: nat, n: nat, k: nat)
    requires Closed(g) && Reachable(g, start, n) && n in g && k in Links(g[n])
    ensures Reachable(g, start, k)
  {
    var p :| Path(g, p) && p[0] == start && p[|p| - 1] == n;
    var q := p + [k];
    forall i | 0 <= i < |q| - 1 ensures q[i + 1] in Links(g[q[i]]) {
      if i < |p| - 1 { assert q[i] == p[i] && q[i + 1] == p[i + 1]; }
    }
    assert Path(g, q) && q[0] == start && q[|q| - 1] == k;
  }

  /** A set that holds the start and every link of its members holds whatever is reachable. */
  lemma {:induction false} ReachesNoFurther(g: Graph, p: seq<nat>, seen: set<nat>)
    requires Path(g, p) && p[0] in seen
    requires forall n, k :: n in seen && n in g && k in Links(g[n]) ==> k in seen
    ensures p[|p| - 1] in seen
    decreases |p|
  {
    if |p| > 1 {
      var q := p[..|p| - 1];
      forall i | 0 <= i < |q| - 1 ensures q[i + 1] in Links(g[q[i]]) {
        assert q[i + 1] == p[i + 1] && q[i] == p[i];
      }
      ReachesNoFurther(g, q, seen);
      assert p[|p| - 2 + 1] in Links(g[p[|p| - 2]]);
    }
  }

  function Elements(s: seq<nat>): set<nat> { set n | n in s }

  /** Everything seen or waiting is reachable, and nothing reachable can be missed. */
  ghost predicate Underway(g: Graph, start: nat, waiting: set<nat>, seen: set<nat>) {
    && seen <= g.Keys && waiting <= g.Keys
    && (forall n :: n in seen + waiting ==> Reachable(g, start, n))
    && start in seen + waiting
    && forall n, k :: n in seen && k in Links(g[n]) ==> k in seen + waiting
  }

  lemma VisitNext(g: Graph, start: nat, waiting: set<nat>, seen: set<nat>, rest: set<nat>, n: nat)
    requires Closed(g) && Underway(g, start, waiting, seen) && waiting == rest + {n}
    ensures Underway(g, start, rest + Elements(Links(g[n])), seen + {n})
    ensures n in seen ==> Underway(g, start, rest, seen)
    ensures n in g
  {
    hide Reachable, Links;
    var more := Elements(Links(g[n]));
    assert seen + {n} + (rest + more) == seen + waiting + more;
    assert n in seen ==> seen + rest == seen + waiting;
    assert n in seen + waiting;
    forall k | k in Links(g[n]) ensures Reachable(g, start, k) && k in more && k in g {
      ReachOn(g, start, n, k);
    }
    forall m, k | m in seen + {n} && k in Links(g[m]) ensures k in seen + waiting + more {
      if m in seen { assert k in seen + waiting; }
    }
  }

  lemma Started(g: Graph, start: nat)
    requires start in g
    ensures Underway(g, start, {start}, {}) && start in g
  {
    assert Path(g, [start]) && [start][0] == start;
  }

  lemma Done(g: Graph, start: nat, seen: set<nat>)
    requires Underway(g, start, {}, seen)
    ensures forall n: nat :: n in seen <==> Reachable(g, start, n)
  {
    forall n: nat | Reachable(g, start, n) ensures n in seen {
      var p :| Path(g, p) && p[0] == start && p[|p| - 1] == n;
      ReachesNoFurther(g, p, seen);
    }
  }

  lemma NoElements()
    ensures Elements([]) == {}
  {}

  lemma AllElements(s: seq<nat>, t: seq<nat>)
    ensures Elements(s + t) == Elements(s) + Elements(t)
    ensures |t| == 1 ==> Elements(t) == {t[0]}
  {}

  lemma NotThere(s: seq<nat>, n: nat)
    requires n !in Elements(s)
    ensures forall i :: 0 <= i < |s| ==> s[i] != n
  {}

  lemma InElements(s: seq<nat>)
    ensures forall n: nat :: n in s <==> n in Elements(s)
  {}

  /** `_walk_exception_tree` ends on every finite graph, and visits what is reachable and nothing else, each
      exception once. */
  method Walk(g: Graph, start: nat) returns (visited: seq<nat>)
    requires Closed(g) && start in g
    ensures forall n: nat :: n in visited <==> Reachable(g, start, n)
    ensures forall i, j :: 0 <= i < j < |visited| ==> visited[i] != visited[j]
  {
    hide Reachable, Closed, Links, Underway, Elements;
    var stack, seen: set<nat> := [start], {};
    visited := [];
    Started(g, start);
    NoElements();
    AllElements([], [start]);
    assert [] + [start] == [start];
    while stack != []
      invariant seen == Elements(visited) && Underway(g, start, Elements(stack), seen)
      invariant forall i, j :: 0 <= i < j < |visited| ==> visited[i] != visited[j]
      decreases |g.Keys - seen|, |stack|
    {
      var current := stack[|stack| - 1];
      var rest := stack[..|stack| - 1];
      assert stack == rest + [current];
      AllElements(rest, [current]);
      VisitNext(g, start, Elements(stack), seen, Elements(rest), current);
      stack := rest;
      if current !in seen {
        Fewer(g.Keys, seen, current);
        seen := seen + {current};
        AllElements(visited, [current]);
        NotThere(visited, current);
        visited := visited + [current];
        stack := PushLinks(stack, g[current]);
        AllElements(rest, Links(g[current]));
      }
    }
    Done(g, start, seen);
    InElements(visited);
  }

  /** The links of an exception go onto the stack. */
  method PushLinks(stack0: seq<nat>, n: Node) returns (stack: seq<nat>)
    ensures stack == stack0 + Links(n)
  {
    stack := stack0 + n.cause;
    stack := stack + n.context;
    for i := 0 to |n.members|
      invariant stack == stack0 + n.cause + n.context + n.members[..i]
    {
      stack := stack + [n.members[i]];
    }
    assert n.members[..|n.members|] == n.members;
  }

  lemma Fewer(all: set<nat>, seen: set<nat>, n: nat)
    requires n in all && n !in seen
    ensures |all - (seen + {n})| < |all - seen|
  {
    assert all - seen == (all - (seen + {n})) + {n};
  }

  /** `is_sqlalchemy_pool_exhaustion_error`: reported exactly if one is reachable. */
  method IsPoolExhaustion(g: Graph, start: nat) returns (found: bool)
    requires Closed(g) && start in g
    ensures found <==> exists n: nat :: n in g && Reachable(g, start, n) && g[n].poolTimeout
  {
    var visited := Walk(g, start);
    forall n: nat | Reachable(g, start, n) ensures n in g {
      var p :| Path(g, p) && p[0] == start && p[|p| - 1] == n;
    }
    found := false;
    for i := 0 to |visited|
      invariant found <==> exists j :: 0 <= j < i && g[visited[j]].poolTimeout
    {
      assert visited[i] in visited;
      if g[visited[i]].poolTimeout {
        found := true;
      }
    }
    if found {
      var j :| 0 <= j < |visited| && g[visited[j]].poolTimeout;
      assert visited[j] in visited;
    }
  }
}
