/**
 * The consistency grouper: while region indices remain unassigned, take the
 * first combination, largest size first, whose pairwise distances are all within
 * the threshold, make it a group and remove it from the pool.
 */
module Grouping {
  import opened Base
  import opened Combos

  /** Largest perceptual distance two regions of one group may have, `CONSISTENCY_THRESHOLD`. */
  const Threshold: real := 2.0

  /** The four region indices, in the order Python iterates the set {0, 1, 2, 3}. */
  const Boxes: seq<nat> := [0, 1, 2, 3]

  /**
   * A perceptual distance between the colours of two regions; the colour science
   * behind it is left abstract. It is only ever asked about (i, j) with i < j.
   */
  type Dist = (nat, nat) -> real

  /** Every pair (earlier, later) of `c` is within the threshold. */
  ghost predicate Consistent(dist: Dist, c: seq<nat>) {
    forall i, j :: 0 <= i < j < |c| ==> dist(c[i], c[j]) <= Threshold
  }

  /** The pair loop: stops at the first pair beyond the threshold. */
  function PairsWithin(dist: Dist, pairs: seq<seq<nat>>): (ok: bool)
    requires forall i :: 0 <= i < |pairs| ==> |pairs[i]| == 2
    ensures ok <==> forall i :: 0 <= i < |pairs| ==> dist(pairs[i][0], pairs[i][1]) <= Threshold
  {
    if |pairs| == 0 then true
    else if dist(pairs[0][0], pairs[0][1]) > Threshold then false
    else PairsWithin(dist, pairs[1..])
  }

  /** The source's test of one candidate subset; a singleton passes without any pair looked at. */
  function IsConsistent(dist: Dist, subset: seq<nat>): bool {
    if |subset| > 1 then PairsWithin(dist, Combinations(subset, 2)) else true
  }

  /** The pair loop decides exactly the all-pairs consistency of an ascending subset. */
  lemma IsConsistentCorrect(dist: Dist, subset: seq<nat>)
    requires Ascending(subset)
    ensures IsConsistent(dist, subset) <==> Consistent(dist, subset)
  {
    if |subset| > 1 {
      if IsConsistent(dist, subset) {
        PassingLoopMeansConsistent(dist, subset);
      } else {
        FailingLoopMeansInconsistent(dist, subset);
      }
    }
  }

  lemma PassingLoopMeansConsistent(dist: Dist, subset: seq<nat>)
    requires Ascending(subset) && |subset| > 1
    requires PairsWithin(dist, Combinations(subset, 2))
    ensures Consistent(dist, subset)
  {
    var pairs := Combinations(subset, 2);
    forall i, j | 0 <= i < j < |subset|
      ensures dist(subset[i], subset[j]) <= Threshold
    {
      var p := [subset[i], subset[j]];
      assert Ascending(p) && Within(p, subset);
      CombinationsMembership(subset, 2, p);
      PassingPair(dist, pairs, p);
    }
  }

  /** A pair the loop walked past without stopping is within the threshold. */
  lemma PassingPair(dist: Dist, pairs: seq<seq<nat>>, p: seq<nat>)
    requires forall i :: 0 <= i < |pairs| ==> |pairs[i]| == 2
    requires PairsWithin(dist, pairs)
    requires p in pairs && |p| == 2
    ensures dist(p[0], p[1]) <= Threshold
  {
    var k :| 0 <= k < |pairs| && pairs[k] == p;
  }

  lemma FailingLoopMeansInconsistent(dist: Dist, subset: seq<nat>)
    requires Ascending(subset) && |subset| > 1
    requires !PairsWithin(dist, Combinations(subset, 2))
    ensures !Consistent(dist, subset)
  {
    var pairs := Combinations(subset, 2);
    var k :| 0 <= k < |pairs| && dist(pairs[k][0], pairs[k][1]) > Threshold;
    var p := pairs[k];
    CombinationsMembership(subset, 2, p);
    var i, j := PairPositions(subset, p);
    assert dist(subset[i], subset[j]) > Threshold;
  }

  /** Where the two members of an ascending pair of an ascending sequence sit. */
  lemma PairPositions(xs: seq<nat>, p: seq<nat>) returns (i: nat, j: nat)
    requires Ascending(xs) && |p| == 2 && Ascending(p) && Within(p, xs)
    ensures i < j < |xs| && xs[i] == p[0] && xs[j] == p[1]
  {
    assert p[0] in xs && p[1] in xs;
    i :| 0 <= i < |xs| && xs[i] == p[0];
    j :| 0 <= j < |xs| && xs[j] == p[1];
  }

  /** Position of the first consistent candidate of `cs`, or `|cs|` when there is none. */
  function FirstConsistent(dist: Dist, cs: seq<seq<nat>>): (k: nat)
    ensures k <= |cs|
    ensures k < |cs| ==> IsConsistent(dist, cs[k])
    ensures forall j :: 0 <= j < k ==> !IsConsistent(dist, cs[j])
  {
    if |cs| == 0 then 0
    else if IsConsistent(dist, cs[0]) then 0
    else 1 + FirstConsistent(dist, cs[1..])
  }

  /** No combination of `xs` of size `s` passes the test. */
  predicate NoneOfSize(dist: Dist, xs: seq<nat>, s: nat) {
    FirstConsistent(dist, Combinations(xs, s)) == |Combinations(xs, s)|
  }

  /** `g` is the first combination of its size that passes the test. */
  predicate FirstOfSize(dist: Dist, xs: seq<nat>, g: seq<nat>) {
    var cs := Combinations(xs, |g|);
    FirstConsistent(dist, cs) < |cs| && cs[FirstConsistent(dist, cs)] == g
  }

  /** Tries sizes `size`, `size - 1`, ..., 1, each in combination order. */
  function Search(dist: Dist, xs: seq<nat>, size: nat): (r: Option<seq<nat>>)
    ensures r.Some? ==> 1 <= |r.value| <= size && FirstOfSize(dist, xs, r.value)
    ensures r.Some? ==> forall s :: |r.value| < s <= size ==> NoneOfSize(dist, xs, s)
    ensures r.None? ==> forall s :: 0 < s <= size ==> NoneOfSize(dist, xs, s)
    ensures 1 <= size && 1 <= |xs| ==> r.Some?
    decreases size
  {
    if size == 0 then None
    else
      var cs := Combinations(xs, size);
      var k := FirstConsistent(dist, cs);
      SingletonsPass(dist, xs, size);
      if k < |cs| then
        FoundFirst(dist, xs, size);
        Some(cs[k])
      else
        var r := Search(dist, xs, size - 1);
        SkippedSize(dist, xs, size, r);
        r
  }

  /** A consistent candidate of size `size` is the first of its size. */
  lemma FoundFirst(dist: Dist, xs: seq<nat>, size: nat)
    requires FirstConsistent(dist, Combinations(xs, size)) < |Combinations(xs, size)|
    ensures var g := Combinations(xs, size)[FirstConsistent(dist, Combinations(xs, size))];
      |g| == size && FirstOfSize(dist, xs, g)
  {
  }

  /** When size `size` has no consistent candidate, the search for smaller sizes decides. */
  lemma SkippedSize(dist: Dist, xs: seq<nat>, size: nat, r: Option<seq<nat>>)
    requires size >= 1 && NoneOfSize(dist, xs, size)
    requires r.Some? ==> forall s :: |r.value| < s <= size - 1 ==> NoneOfSize(dist, xs, s)
    requires r.Some? ==> |r.value| <= size - 1
    requires r.None? ==> forall s :: 0 < s <= size - 1 ==> NoneOfSize(dist, xs, s)
    ensures r.Some? ==> forall s :: |r.value| < s <= size ==> NoneOfSize(dist, xs, s)
    ensures r.None? ==> forall s :: 0 < s <= size ==> NoneOfSize(dist, xs, s)
  {
  }

  /** The first singleton is accepted: the size-one round never comes up empty. */
  lemma SingletonsPass(dist: Dist, xs: seq<nat>, size: nat)
    ensures size == 1 && 1 <= |xs| ==> FirstConsistent(dist, Combinations(xs, size)) < |Combinations(xs, size)|
  {
    if size == 1 && 1 <= |xs| {
      CombinationsOfOne(xs);
      assert IsConsistent(dist, Combinations(xs, 1)[0]);
    }
  }

  /** The subset the inner loops settle on for the pool `xs`. */
  function BestSubset(dist: Dist, xs: seq<nat>): Option<seq<nat>> {
    Search(dist, xs, |xs|)
  }

  /**
   * `g` is what a greedy step may take from the pool `xs`: a non-empty consistent
   * ascending subset of it, of the largest size any consistent subset of `xs` has,
   * and the first consistent one of that size in combination order.
   */
  ghost predicate GreedyChoice(dist: Dist, xs: seq<nat>, g: seq<nat>) {
    && 1 <= |g|
    && Ascending(g) && Within(g, xs)
    && Consistent(dist, g)
    && (forall c :: Ascending(c) && Within(c, xs) && Consistent(dist, c) ==> |c| <= |g|)
    && var cs := Combinations(xs, |g|);
       exists k :: 0 <= k < |cs| && cs[k] == g && forall j :: 0 <= j < k ==> !Consistent(dist, cs[j])
  }

  /** A non-empty pool always yields a subset, and it is the greedy choice. */
  lemma BestSubsetIsGreedy(dist: Dist, xs: seq<nat>)
    requires Ascending(xs) && |xs| > 0
    ensures BestSubset(dist, xs).Some?
    ensures GreedyChoice(dist, xs, BestSubset(dist, xs).value)
  {
    var g := BestSubset(dist, xs).value;
    var cs := Combinations(xs, |g|);
    var k := FirstConsistent(dist, cs);
    assert FirstOfSize(dist, xs, g);
    CombinationsSound(xs, |g|);
    assert cs[k] in cs;
    IsConsistentCorrect(dist, g);
    forall j | 0 <= j < k
      ensures !Consistent(dist, cs[j])
    {
      assert cs[j] in cs;
      IsConsistentCorrect(dist, cs[j]);
    }
    forall c | Ascending(c) && Within(c, xs) && Consistent(dist, c)
      ensures |c| <= |g|
    {
      if |c| > |g| {
        LengthWithin(xs, c);
        CombinationsComplete(xs, c);
        var cs' := Combinations(xs, |c|);
        assert NoneOfSize(dist, xs, |c|);
        var j :| 0 <= j < |cs'| && cs'[j] == c;
        IsConsistentCorrect(dist, c);
      }
    }
  }

  /**
   * The tie-break among consistent subsets of the chosen size: the chosen group
   * precedes every other one lexicographically.
   */
  lemma BestSubsetIsLexFirst(dist: Dist, xs: seq<nat>, c: seq<nat>)
    requires Ascending(xs) && |xs| > 0
    requires Ascending(c) && Within(c, xs) && Consistent(dist, c)
    requires |c| == |BestSubset(dist, xs).value| && c != BestSubset(dist, xs).value
    ensures LexLess(BestSubset(dist, xs).value, c)
  {
    BestSubsetIsGreedy(dist, xs);
    var g := BestSubset(dist, xs).value;
    var cs := Combinations(xs, |g|);
    var k :| 0 <= k < |cs| && cs[k] == g && forall j :: 0 <= j < k ==> !Consistent(dist, cs[j]);
    FirstPassingIsLexFirst(dist, xs, |g|, k, c);
  }

  /** The first consistent combination of a size precedes every other consistent one of that size. */
  lemma FirstPassingIsLexFirst(dist: Dist, xs: seq<nat>, size: nat, k: nat, c: seq<nat>)
    requires Ascending(xs) && k < |Combinations(xs, size)|
    requires forall j :: 0 <= j < k ==> !Consistent(dist, Combinations(xs, size)[j])
    requires Ascending(c) && Within(c, xs) && Consistent(dist, c)
    requires |c| == size && c != Combinations(xs, size)[k]
    ensures LexLess(Combinations(xs, size)[k], c)
  {
    var cs := Combinations(xs, size);
    CombinationsComplete(xs, c);
    LaterThanFirst(dist, cs, k, c);
    var j :| k < j < |cs| && cs[j] == c;
    EarlierIsLexLess(xs, size, k, j);
  }

  /** Another consistent entry comes after the first consistent one. */
  lemma LaterThanFirst(dist: Dist, cs: seq<seq<nat>>, k: nat, c: seq<nat>)
    requires k < |cs| && c in cs && c != cs[k] && Consistent(dist, c)
    requires forall i :: 0 <= i < k ==> !Consistent(dist, cs[i])
    ensures exists j :: k < j < |cs| && cs[j] == c
  {
    var j :| 0 <= j < |cs| && cs[j] == c;
  }

  lemma EarlierIsLexLess(xs: seq<nat>, size: nat, k: nat, j: nat)
    requires Ascending(xs) && k < j < |Combinations(xs, size)|
    ensures LexLess(Combinations(xs, size)[k], Combinations(xs, size)[j])
  {
    CombinationsSorted(xs, size);
  }

  /** `xs` with every element of `g` removed, order kept: `indices -= set(best_subset)`. */
  function Without(xs: seq<nat>, g: seq<nat>): (r: seq<nat>)
    ensures |r| <= |xs|
    ensures forall x :: x in r <==> x in xs && x !in g
    ensures Ascending(xs) ==> Ascending(r)
  {
    if |xs| == 0 then []
    else
      var rest := Without(xs[1..], g);
      HeadBeforePicks(xs, rest);
      if xs[0] in g then rest else [xs[0]] + rest
  }

  /** The head of an ascending pool goes in front of an ascending pick from its tail. */
  lemma HeadBeforePicks(xs: seq<nat>, rest: seq<nat>)
    requires |xs| > 0
    requires forall x :: x in rest ==> x in xs[1..]
    requires Ascending(xs) ==> Ascending(rest)
    ensures Ascending(xs) ==> Ascending(rest) && Ascending([xs[0]] + rest)
  {
    if Ascending(xs) {
      var c := [xs[0]] + rest;
      forall i, j | 0 <= i < j < |c|
        ensures c[i] < c[j]
      {
        if i == 0 {
          assert c[j] == rest[j - 1];
          assert c[j] in xs[1..];
        } else {
          assert c[i] == rest[i - 1] && c[j] == rest[j - 1];
        }
      }
    }
  }

  /** Removing something that was in the pool shrinks it. */
  lemma {:induction false} WithoutShrinks(xs: seq<nat>, g: seq<nat>, x: nat)
    requires x in xs && x in g
    ensures |Without(xs, g)| < |xs|
  {
    if xs[0] != x {
      WithoutShrinks(xs[1..], g, x);
    }
  }

  /** The groups `a` and `b` share no index. */
  predicate Disjoint(a: seq<nat>, b: seq<nat>) {
    forall x :: x in a ==> x !in b
  }

  /** The outer loop: groups in the order they are produced. */
  function Partition(dist: Dist, xs: seq<nat>): (gs: seq<seq<nat>>)
    requires Ascending(xs)
    ensures forall k :: 0 <= k < |gs| ==>
      1 <= |gs[k]| && Ascending(gs[k]) && Within(gs[k], xs) && Consistent(dist, gs[k])
    ensures forall k, l :: 0 <= k < l < |gs| ==> Disjoint(gs[k], gs[l])
    ensures forall x :: x in xs ==> exists k :: 0 <= k < |gs| && x in gs[k]
    decreases |xs|
  {
    if |xs| == 0 then []
    else
      BestSubsetIsGreedy(dist, xs);
      var g := BestSubset(dist, xs).value;
      var rest := Without(xs, g);
      WithoutShrinks(xs, g, g[0]);
      var tail := Partition(dist, rest);
      ConsGroups(dist, xs, g, tail);
      [g] + tail
  }

  /** Putting a group in front of the groups of what it left over keeps the partition properties. */
  lemma ConsGroups(dist: Dist, xs: seq<nat>, g: seq<nat>, tail: seq<seq<nat>>)
    requires 1 <= |g| && Ascending(g) && Within(g, xs) && Consistent(dist, g)
    requires forall k :: 0 <= k < |tail| ==>
      1 <= |tail[k]| && Ascending(tail[k]) && Within(tail[k], Without(xs, g)) && Consistent(dist, tail[k])
    requires forall k, l :: 0 <= k < l < |tail| ==> Disjoint(tail[k], tail[l])
    requires forall x :: x in Without(xs, g) ==> exists k :: 0 <= k < |tail| && x in tail[k]
    ensures var gs := [g] + tail;
      && (forall k :: 0 <= k < |gs| ==>
            1 <= |gs[k]| && Ascending(gs[k]) && Within(gs[k], xs) && Consistent(dist, gs[k]))
      && (forall k, l :: 0 <= k < l < |gs| ==> Disjoint(gs[k], gs[l]))
      && (forall x :: x in xs ==> exists k :: 0 <= k < |gs| && x in gs[k])
  {
    ConsMembers(dist, xs, g, tail);
    ConsDisjoint(xs, g, tail);
    ConsCovers(xs, g, tail);
  }

  lemma ConsMembers(dist: Dist, xs: seq<nat>, g: seq<nat>, tail: seq<seq<nat>>)
    requires 1 <= |g| && Ascending(g) && Within(g, xs) && Consistent(dist, g)
    requires forall k :: 0 <= k < |tail| ==>
      1 <= |tail[k]| && Ascending(tail[k]) && Within(tail[k], Without(xs, g)) && Consistent(dist, tail[k])
    ensures var gs := [g] + tail;
      forall k :: 0 <= k < |gs| ==> 1 <= |gs[k]| && Ascending(gs[k]) && Within(gs[k], xs) && Consistent(dist, gs[k])
  {
    var gs := [g] + tail;
    forall k | 1 <= k < |gs|
      ensures Within(gs[k], xs)
    {
      assert gs[k] == tail[k - 1];
      assert Within(tail[k - 1], Without(xs, g));
    }
  }

  lemma ConsDisjoint(xs: seq<nat>, g: seq<nat>, tail: seq<seq<nat>>)
    requires forall k :: 0 <= k < |tail| ==> Within(tail[k], Without(xs, g))
    requires forall k, l :: 0 <= k < l < |tail| ==> Disjoint(tail[k], tail[l])
    ensures var gs := [g] + tail; forall k, l :: 0 <= k < l < |gs| ==> Disjoint(gs[k], gs[l])
  {
    var gs := [g] + tail;
    forall k | 1 <= k < |gs|
      ensures Disjoint(gs[0], gs[k])
    {
      assert gs[k] == tail[k - 1];
      assert Within(tail[k - 1], Without(xs, g));
    }
    forall k, l | 1 <= k < l < |gs|
      ensures Disjoint(gs[k], gs[l])
    {
      assert gs[k] == tail[k - 1] && gs[l] == tail[l - 1];
    }
  }

  lemma ConsCovers(xs: seq<nat>, g: seq<nat>, tail: seq<seq<nat>>)
    requires forall x :: x in Without(xs, g) ==> exists k :: 0 <= k < |tail| && x in tail[k]
    ensures var gs := [g] + tail; forall x :: x in xs ==> exists k :: 0 <= k < |gs| && x in gs[k]
  {
    var gs := [g] + tail;
    forall x | x in xs
      ensures exists k :: 0 <= k < |gs| && x in gs[k]
    {
      if x in g {
        assert gs[0] == g;
      } else {
        assert x in Without(xs, g);
        var k :| 0 <= k < |tail| && x in tail[k];
        assert gs[k + 1] == tail[k];
      }
    }
  }

  /**
   * `gs` is what the greedy loop may produce from the pool `xs`: each group is the
   * greedy choice from the pool the earlier groups left, and that pool ends empty.
   */
  ghost predicate GreedyGroups(dist: Dist, xs: seq<nat>, gs: seq<seq<nat>>)
    decreases |gs|
  {
    if |gs| == 0 then |xs| == 0
    else GreedyChoice(dist, xs, gs[0]) && GreedyGroups(dist, Without(xs, gs[0]), gs[1..])
  }

  /** The outer loop produces greedy groups and empties the pool. */
  lemma {:induction false} PartitionIsGreedy(dist: Dist, xs: seq<nat>)
    requires Ascending(xs)
    ensures GreedyGroups(dist, xs, Partition(dist, xs))
    decreases |xs|
  {
    if |xs| > 0 {
      var gs := Partition(dist, xs);
      BestSubsetIsGreedy(dist, xs);
      var g := BestSubset(dist, xs).value;
      var rest := Without(xs, g);
      WithoutShrinks(xs, g, g[0]);
      PartitionIsGreedy(dist, rest);
      assert gs[0] == g && gs[1..] == Partition(dist, rest);
    }
  }

  /** Removing two different pool members shrinks the pool by at least two. */
  lemma {:induction false} WithoutShrinksTwice(xs: seq<nat>, g: seq<nat>, a: nat, b: nat)
    requires a != b && a in xs && b in xs && a in g && b in g
    ensures |Without(xs, g)| <= |xs| - 2
  {
    if xs[0] == a {
      WithoutShrinks(xs[1..], g, b);
    } else if xs[0] == b {
      WithoutShrinks(xs[1..], g, a);
    } else {
      WithoutShrinksTwice(xs[1..], g, a, b);
    }
  }

  /** Removing what is not in the pool changes nothing. */
  lemma {:induction false} WithoutNothing(xs: seq<nat>, g: seq<nat>)
    requires forall x :: x in xs ==> x !in g
    ensures Without(xs, g) == xs
  {
    if |xs| > 0 {
      WithoutNothing(xs[1..], g);
      assert [xs[0]] + xs[1..] == xs;
    }
  }

  /** Removing a superset of the pool empties it. */
  lemma {:induction false} WithoutEverything(xs: seq<nat>, g: seq<nat>)
    requires forall x :: x in xs ==> x in g
    ensures Without(xs, g) == []
  {
    if |xs| > 0 {
      WithoutEverything(xs[1..], g);
    }
  }

  /** Removing one member of a duplicate-free pool shrinks it by exactly one. */
  lemma {:induction false} WithoutSingle(xs: seq<nat>, x: nat)
    requires Ascending(xs) && x in xs
    ensures |Without(xs, [x])| == |xs| - 1
  {
    if xs[0] == x {
      WithoutNothing(xs[1..], [x]);
    } else {
      WithoutSingle(xs[1..], x);
    }
  }

  /** There are never more groups than regions. */
  lemma {:induction false} PartitionCount(dist: Dist, xs: seq<nat>)
    requires Ascending(xs)
    ensures |Partition(dist, xs)| <= |xs|
    decreases |xs|
  {
    if |xs| > 0 {
      BestSubsetIsGreedy(dist, xs);
      var g := BestSubset(dist, xs).value;
      WithoutShrinks(xs, g, g[0]);
      PartitionCount(dist, Without(xs, g));
    }
  }

  /** Every pair of the pool is beyond the threshold. */
  ghost predicate NoClosePair(dist: Dist, xs: seq<nat>) {
    forall i, j :: 0 <= i < j < |xs| ==> dist(xs[i], xs[j]) > Threshold
  }

  /** Two members of an ascending sequence, in increasing order, sit at increasing positions. */
  lemma OrderedPositions(xs: seq<nat>, a: nat, b: nat) returns (i: nat, j: nat)
    requires Ascending(xs) && a in xs && b in xs && a < b
    ensures i < j < |xs| && xs[i] == a && xs[j] == b
  {
    i :| 0 <= i < |xs| && xs[i] == a;
    j :| 0 <= j < |xs| && xs[j] == b;
  }

  /** A consistent pool is taken whole, as the one and only group. */
  lemma ConsistentPoolIsOneGroup(dist: Dist, xs: seq<nat>)
    requires Ascending(xs) && |xs| > 0 && Consistent(dist, xs)
    ensures Partition(dist, xs) == [xs]
  {
    CombinationsFull(xs);
    IsConsistentCorrect(dist, xs);
    assert FirstConsistent(dist, [xs]) == 0;
    assert BestSubset(dist, xs) == Some(xs);
    var rest := Without(xs, xs);
    WithoutEverything(xs, xs);
    assert Partition(dist, rest) == [];
    assert Partition(dist, xs) == [xs] + Partition(dist, rest);
  }

  /** One group exactly when the whole pool is consistent. */
  lemma OneGroupIffConsistent(dist: Dist, xs: seq<nat>)
    requires Ascending(xs) && |xs| > 0
    ensures |Partition(dist, xs)| == 1 <==> Consistent(dist, xs)
  {
    var gs := Partition(dist, xs);
    if Consistent(dist, xs) {
      ConsistentPoolIsOneGroup(dist, xs);
    }
    if |gs| == 1 {
      var g := gs[0];
      forall i, j | 0 <= i < j < |xs|
        ensures dist(xs[i], xs[j]) <= Threshold
      {
        assert xs[i] in g && xs[j] in g;
        var p, q := OrderedPositions(g, xs[i], xs[j]);
      }
    }
  }

  /** The far-apart property carries over to any ascending sub-pool. */
  lemma NoClosePairWithin(dist: Dist, xs: seq<nat>, ys: seq<nat>)
    requires Ascending(xs) && Ascending(ys) && Within(ys, xs) && NoClosePair(dist, xs)
    ensures NoClosePair(dist, ys)
  {
    forall i, j | 0 <= i < j < |ys|
      ensures dist(ys[i], ys[j]) > Threshold
    {
      var p, q := OrderedPositions(xs, ys[i], ys[j]);
    }
  }

  /** As many groups as regions exactly when no two regions are within the threshold. */
  lemma AllSingletonsIffNoClosePair(dist: Dist, xs: seq<nat>)
    requires Ascending(xs)
    ensures |Partition(dist, xs)| == |xs| <==> NoClosePair(dist, xs)
  {
    if NoClosePair(dist, xs) {
      FarMeansSingletons(dist, xs);
    } else {
      CloseMeansFewer(dist, xs);
    }
  }

  /** With every pair far apart each group is a single region. */
  lemma {:induction false} FarMeansSingletons(dist: Dist, xs: seq<nat>)
    requires Ascending(xs) && NoClosePair(dist, xs)
    ensures |Partition(dist, xs)| == |xs|
    decreases |xs|
  {
    if |xs| > 0 {
      BestSubsetIsGreedy(dist, xs);
      var g := BestSubset(dist, xs).value;
      FarGroupIsSingleton(dist, xs, g);
      var rest := Without(xs, g);
      assert g == [g[0]];
      WithoutSingle(xs, g[0]);
      NoClosePairWithin(dist, xs, rest);
      FarMeansSingletons(dist, rest);
    }
  }

  lemma FarGroupIsSingleton(dist: Dist, xs: seq<nat>, g: seq<nat>)
    requires Ascending(xs) && NoClosePair(dist, xs)
    requires 1 <= |g| && Ascending(g) && Within(g, xs) && Consistent(dist, g)
    ensures |g| == 1
  {
    if |g| >= 2 {
      assert g[0] in xs && g[1] in xs;
      var p, q := OrderedPositions(xs, g[0], g[1]);
    }
  }

  /** A close pair forces a group of two or more, so fewer groups than regions. */
  lemma CloseMeansFewer(dist: Dist, xs: seq<nat>)
    requires Ascending(xs) && !NoClosePair(dist, xs)
    ensures |Partition(dist, xs)| < |xs|
  {
    BestSubsetIsGreedy(dist, xs);
    var g := BestSubset(dist, xs).value;
    CloseMeansPair(dist, xs, g);
    WithoutShrinksTwice(xs, g, g[0], g[1]);
    PartitionCount(dist, Without(xs, g));
    PartitionUnfold(dist, xs, g);
  }

  /** A pool with a close pair makes the greedy step take at least two members. */
  lemma CloseMeansPair(dist: Dist, xs: seq<nat>, g: seq<nat>)
    requires Ascending(xs) && !NoClosePair(dist, xs) && GreedyChoice(dist, xs, g)
    ensures |g| >= 2 && g[0] != g[1] && g[0] in xs && g[1] in xs
  {
    var i, j :| 0 <= i < j < |xs| && dist(xs[i], xs[j]) <= Threshold;
    var c := [xs[i], xs[j]];
    assert Ascending(c) && Within(c, xs) && Consistent(dist, c);
    assert |g| >= 2;
    assert g[0] < g[1];
  }

  /**
   * Two close pairs, (0, 1) and (2, 3), far from each other: the greedy loop
   * groups them as [0, 1] then [2, 3].
   */
  lemma TwoPairs(dist: Dist)
    requires dist(0, 1) <= Threshold && dist(2, 3) <= Threshold
    requires dist(0, 2) > Threshold && dist(0, 3) > Threshold
    requires dist(1, 2) > Threshold && dist(1, 3) > Threshold
    ensures Partition(dist, Boxes) == [[0, 1], [2, 3]]
  {
    var first: seq<nat> := [0, 1];
    var second: seq<nat> := [2, 3];
    FirstPair(dist);
    BoxesAscending();
    PartitionUnfold(dist, Boxes, first);
    BoxesWithoutFirstPair();
    SecondPair(dist);
  }

  lemma BoxesWithoutFirstPair()
    ensures Without(Boxes, [0, 1]) == [2, 3]
  {
    WithoutNothing([2, 3], [0, 1]);
    assert Boxes[1..][1..] == [2, 3];
  }

  lemma SecondPair(dist: Dist)
    requires dist(2, 3) <= Threshold
    ensures Partition(dist, [2, 3]) == [[2, 3]]
  {
    var pair: seq<nat> := [2, 3];
    assert Consistent(dist, pair) by {
      assert pair[0] == 2 && pair[1] == 3;
    }
    ConsistentPoolIsOneGroup(dist, pair);
  }

  /** One turn of the outer loop. */
  lemma PartitionUnfold(dist: Dist, xs: seq<nat>, g: seq<nat>)
    requires Ascending(xs) && |xs| > 0 && BestSubset(dist, xs) == Some(g)
    ensures Partition(dist, xs) == [g] + Partition(dist, Without(xs, g))
  {
  }

  lemma BoxesAscending()
    ensures Ascending(Boxes)
  {
  }

  lemma FirstPair(dist: Dist)
    requires dist(0, 1) <= Threshold
    requires dist(0, 2) > Threshold && dist(0, 3) > Threshold
    requires dist(1, 2) > Threshold && dist(1, 3) > Threshold
    ensures BestSubset(dist, Boxes) == Some([0, 1])
  {
    BoxesAscending();
    BestSubsetIsGreedy(dist, Boxes);
    var g := BestSubset(dist, Boxes).value;
    FirstPairCandidate(dist);
    NoConsistentTriple(dist, g);
    GreedyPairIsFirst(dist, g);
  }

  /** A greedy pick of two regions is the first consistent pair, which is [0, 1] when that pair is close. */
  lemma GreedyPairIsFirst(dist: Dist, g: seq<nat>)
    requires dist(0, 1) <= Threshold
    requires GreedyChoice(dist, Boxes, g) && |g| == 2
    ensures g == [0, 1]
  {
    var cs := Combinations(Boxes, 2);
    PairsOfBoxesStartWithFirst();
    FirstPairConsistent(dist);
    var k :| 0 <= k < |cs| && cs[k] == g && forall j :: 0 <= j < k ==> !Consistent(dist, cs[j]);
    assert k == 0;
  }

  /** [0, 1] is an ascending consistent pick from the four regions when its distance is small. */
  lemma FirstPairCandidate(dist: Dist)
    requires dist(0, 1) <= Threshold
    ensures var c: seq<nat> := [0, 1]; Ascending(c) && Within(c, Boxes) && Consistent(dist, c)
  {
    var c: seq<nat> := [0, 1];
    assert Boxes[0] == 0 && Boxes[1] == 1;
    FirstPairConsistent(dist);
  }

  lemma FirstPairConsistent(dist: Dist)
    requires dist(0, 1) <= Threshold
    ensures Consistent(dist, [0, 1])
  {
    var c: seq<nat> := [0, 1];
    assert c[0] == 0 && c[1] == 1;
  }

  lemma PairsOfBoxesStartWithFirst()
    ensures |Combinations(Boxes, 2)| > 0 && Combinations(Boxes, 2)[0] == [0, 1]
  {
    var tail: seq<nat> := [1, 2, 3];
    assert Boxes[1..] == tail;
    CombinationsOfOne(tail);
    assert Combinations(tail, 1)[0] == [1];
  }

  lemma NoConsistentTriple(dist: Dist, g: seq<nat>)
    requires dist(0, 2) > Threshold && dist(0, 3) > Threshold
    requires dist(1, 2) > Threshold && dist(1, 3) > Threshold
    requires Ascending(g) && Within(g, Boxes) && Consistent(dist, g)
    ensures |g| <= 2
  {
    if |g| >= 3 {
      assert g[0] < g[1] < g[2];
      TripleHasFarPair(dist, g[0], g[1], g[2]);
      assert false;
    }
  }

  lemma TripleHasFarPair(dist: Dist, a: nat, b: nat, c: nat)
    requires dist(0, 2) > Threshold && dist(0, 3) > Threshold
    requires dist(1, 2) > Threshold && dist(1, 3) > Threshold
    requires a < b < c <= 3
    ensures dist(a, b) > Threshold || dist(a, c) > Threshold || dist(b, c) > Threshold
  {
    if a == 1 {
      assert b == 2;
    }
  }
}
