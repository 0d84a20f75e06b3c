/** Removing redundant keywords (backend/scripts/optimize_keywords.py). */
module KeywordMinimise {

  import opened Basics

  predicate ContainsProperly(s: string, t: string) { t != s && Contains(s, t) }

  lemma ContainsTrans(s: string, t: string, u: string)
    requires Contains(s, t) && Contains(t, u)
    ensures Contains(s, u)
  {
    var i :| 0 <= i <= |s| && OccursAt(s, t, i);
    var j :| 0 <= j <= |t| && OccursAt(t, u, j);
    var w := s[i + j..i + j + |u|];
    forall k | 0 <= k < |u| ensures w[k] == u[k] {
      assert w[k] == s[i..i + |t|][j + k] == t[j + k] == t[j..j + |u|][k];
    }
    assert w == u;
    assert OccursAt(s, u, i + j);
  }

  lemma ContainsShorter(s: string, t: string)
    requires Contains(s, t)
    ensures |t| <= |s| && (|t| == |s| ==> t == s)
  {
    var i :| 0 <= i <= |s| && OccursAt(s, t, i);
    if |t| == |s| { assert s[i..i + |t|] == s; }
  }

  /** Some other keyword lies properly within the `i`-th. */
  ghost predicate Covered(lower: seq<string>, i: nat)
    requires i < |lower|
  {
    exists j :: 0 <= j < |lower| && ContainsProperly(lower[i], lower[j])
  }

  /** Within every keyword, or text, that contains one there is one that is not covered. */
  lemma {:induction false} Minimal(lower: seq<string>, text: string, j: nat) returns (k: nat)
    requires j < |lower| && Contains(text, lower[j])
    ensures k < |lower| && !Covered(lower, k) && Contains(text, lower[k]) && |lower[k]| <= |lower[j]|
    decreases |lower[j]|
  {
    if Covered(lower, j) {
      var i: nat :| i < |lower| && ContainsProperly(lower[j], lower[i]);
      ContainsTrans(text, lower[j], lower[i]);
      ContainsShorter(lower[j], lower[i]);
      k := Minimal(lower, text, i);
    } else {
      k := j;
    }
  }

  /** A covered keyword is covered by one that is not. */
  lemma CoveredByKept(lower: seq<string>, i: nat) returns (k: nat)
    requires i < |lower| && Covered(lower, i)
    ensures k < |lower| && !Covered(lower, k) && ContainsProperly(lower[i], lower[k])
  {
    var j: nat :| j < |lower| && ContainsProperly(lower[i], lower[j]);
    ContainsShorter(lower[i], lower[j]);
    k := Minimal(lower, lower[i], j);
  }

  /** `find_redundant`: although it passes over keywords already found redundant, it finds exactly the
      covered ones, and names for each a keyword within it. */
  method FindRedundant(lower: seq<string>) returns (pairs: seq<(nat, nat)>, redundant: set<nat>)
    ensures forall i: nat :: i in redundant <==> i < |lower| && Covered(lower, i)
    ensures forall i: nat :: i in redundant <==> exists p :: p in pairs && p.0 == i
    ensures forall p :: p in pairs ==> p.0 < |lower| && p.1 < |lower| && ContainsProperly(lower[p.0], lower[p.1])
    ensures forall k, l :: 0 <= k < l < |pairs| ==> pairs[k].0 < pairs[l].0
  {
    hide Covered, ContainsProperly;
    pairs, redundant := [], {};
    for i := 0 to |lower|
      invariant forall k: nat :: k in redundant <==> k < i && Covered(lower, k)
      invariant forall k: nat :: k in redundant <==> exists p :: p in pairs && p.0 == k
      invariant forall p :: p in pairs ==> p.0 < i && p.1 < |lower| && ContainsProperly(lower[p.0], lower[p.1])
      invariant forall k, l :: 0 <= k < l < |pairs| ==> pairs[k].0 < pairs[l].0
    {
      var found, j := Covering(lower, redundant, i);
      if found {
        ghost var before := pairs;
        pairs := pairs + [(i, j)];
        redundant := redundant + {i};
        assert pairs[|before|] == (i, j);
        assert forall p :: p in before ==> p in pairs;
      }
    }
  }

  /** The inner loop: the first keyword, not found redundant so far, within the `i`-th. */
  method Covering(lower: seq<string>, redundant: set<nat>, i: nat) returns (found: bool, j: nat)
    requires i < |lower| && forall k: nat :: k in redundant <==> k < i && Covered(lower, k)
    ensures found <==> Covered(lower, i)
    ensures found ==> j < |lower| && ContainsProperly(lower[i], lower[j])
  {
    j := 0;
    while j < |lower|
      invariant j <= |lower|
      invariant forall k: nat :: k < j && k !in redundant ==> !ContainsProperly(lower[i], lower[k])
    {
      if i != j && j !in redundant && lower[j] != lower[i] && Contains(lower[i], lower[j]) {
        return true, j;
      }
      j := j + 1;
    }
    if Covered(lower, i) {
      var _ := CoveredByKept(lower, i);
      assert false;
    }
    return false, 0;
  }

  /** The keywords that stay, in order. */
  method Kept(keywords: seq<string>, fold: string -> string) returns (kept: seq<string>)
    ensures forall k :: k in kept <==> exists i :: 0 <= i < |keywords| && keywords[i] == k && !Covered(Folded(keywords, fold), i)
  {
    var lower := Folded(keywords, fold);
    var pairs, redundant := FindRedundant(lower);
    var gone := set p | p in pairs :: keywords[p.0];
    kept := [];
    for i := 0 to |keywords|
      invariant forall k :: k in kept <==> exists j :: 0 <= j < i && keywords[j] == k && !Covered(lower, j)
    {
      SameKeyword(keywords, fold, pairs, redundant, i);
      if keywords[i] !in gone {
        kept := kept + [keywords[i]];
      }
    }
  }

  function Folded(keywords: seq<string>, fold: string -> string): (lower: seq<string>)
    ensures |lower| == |keywords| && forall i :: 0 <= i < |keywords| ==> lower[i] == fold(keywords[i])
  {
    seq(|keywords|, i requires 0 <= i < |keywords| => fold(keywords[i]))
  }

  /** Dropping the text of a redundant keyword drops its copies, which are as redundant. */
  lemma SameKeyword(keywords: seq<string>, fold: string -> string, pairs: seq<(nat, nat)>, redundant: set<nat>, i: nat)
    requires i < |keywords|
    requires forall k: nat :: k in redundant <==> k < |keywords| && Covered(Folded(keywords, fold), k)
    requires forall k: nat :: k in redundant <==> exists p :: p in pairs && p.0 == k
    requires forall p :: p in pairs ==> p.0 < |keywords|
    ensures (exists p :: p in pairs && keywords[p.0] == keywords[i]) <==> Covered(Folded(keywords, fold), i)
  {
    var lower := Folded(keywords, fold);
    if exists p :: p in pairs && keywords[p.0] == keywords[i] {
      var p :| p in pairs && keywords[p.0] == keywords[i];
      assert p.0 in redundant;
      assert lower[p.0] == lower[i];
    }
  }

  ghost predicate Matches(text: string, keywords: seq<string>, fold: string -> string) {
    exists k :: k in keywords && Contains(fold(text), fold(k))
  }

  ghost predicate IsKept(keywords: seq<string>, kept: seq<string>, fold: string -> string) {
    forall k :: k in kept <==> exists i :: 0 <= i < |keywords| && keywords[i] == k && !Covered(Folded(keywords, fold), i)
  }

  /** Every text is matched by the kept keywords exactly if it was by all of them. */
  lemma KeepsMeaning(keywords: seq<string>, kept: seq<string>, fold: string -> string, text: string)
    requires IsKept(keywords, kept, fold)
    ensures Matches(text, kept, fold) <==> Matches(text, keywords, fold)
  {
    var lower := Folded(keywords, fold);
    if Matches(text, keywords, fold) {
      var k :| k in keywords && Contains(fold(text), fold(k));
      var j: nat :| j < |keywords| && keywords[j] == k;
      var i := Minimal(lower, fold(text), j);
      assert keywords[i] in kept;
    }
  }

  /** And none of them is covered by another. */
  lemma KeptAreMinimal(keywords: seq<string>, kept: seq<string>, fold: string -> string, a: string, b: string)
    requires IsKept(keywords, kept, fold) && a in kept && b in kept
    ensures !ContainsProperly(fold(a), fold(b))
  {
    var lower := Folded(keywords, fold);
    var i :| 0 <= i < |keywords| && keywords[i] == a && !Covered(lower, i);
    var j :| 0 <= j < |keywords| && keywords[j] == b && !Covered(lower, j);
    if ContainsProperly(lower[i], lower[j]) {
      assert false;
    }
  }
}
