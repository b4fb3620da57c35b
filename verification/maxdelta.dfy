/** The diagnostic maximum of the six pairwise distances between the four regions. */
module MaxDelta {
  import opened Combos
  import opened Grouping

  /**
   * The running maximum over `combinations(range(4), 2)`, starting from 0.0 and
   * replaced only by a strictly larger distance.
   */
  method MaxDeltaE(dist: Dist) returns (m: real)
    ensures m >= 0.0
    ensures forall i: nat, j: nat :: i < j < 4 ==> dist(i, j) <= m
    ensures m == 0.0 || exists i: nat, j: nat :: i < j < 4 && m == dist(i, j)
  {
    var pairs := BoxPairList();
    m := MaxOver(dist, pairs);
    AllPairsBelow(dist, pairs, m);
  }

  /** `itertools.combinations` of the four regions taken two at a time. */
  method BoxPairList() returns (pairs: seq<seq<nat>>)
    ensures ListsBoxPairs(pairs) && AllPairs(pairs)
  {
    BoxesAscending();
    pairs := Combinations(Boxes, 2);
    IndexPairs(Boxes);
  }

  /** A pair sequence that lists exactly the (i, j) with i < j < 4. */
  ghost predicate ListsBoxPairs(pairs: seq<seq<nat>>)
  {
    (forall p :: p in pairs ==> |p| == 2 && p[0] < p[1] < 4) &&
    (forall i: nat, j: nat :: i < j < 4 ==> [i, j] in pairs)
  }

  /** A pair sequence in which every entry is a pair. */
  predicate AllPairs(pairs: seq<seq<nat>>)
  {
    forall t :: 0 <= t < |pairs| ==> |pairs[t]| == 2
  }

  /**
   * The running maximum of `dist` over the listed pairs, starting from 0.0 and
   * replaced only by a strictly larger distance.
   */
  method MaxOver(dist: Dist, pairs: seq<seq<nat>>) returns (m: real)
    requires AllPairs(pairs)
    ensures m >= 0.0
    ensures forall t :: 0 <= t < |pairs| ==> dist(pairs[t][0], pairs[t][1]) <= m
    ensures m == 0.0 || exists t :: 0 <= t < |pairs| && m == dist(pairs[t][0], pairs[t][1])
  {
    m := 0.0;
    var k := 0;
    while k < |pairs|
      invariant 0 <= k <= |pairs|
      invariant m >= 0.0
      invariant forall t :: 0 <= t < k ==> dist(pairs[t][0], pairs[t][1]) <= m
      invariant m == 0.0 || exists t :: 0 <= t < k && m == dist(pairs[t][0], pairs[t][1])
    {
      var d := dist(pairs[k][0], pairs[k][1]);
      if d > m {
        m := d;
      }
      k := k + 1;
    }
  }

  /** A maximum over a listing of the box pairs is a maximum over the box pairs. */
  lemma AllPairsBelow(dist: Dist, pairs: seq<seq<nat>>, m: real)
    requires ListsBoxPairs(pairs) && AllPairs(pairs)
    requires forall t :: 0 <= t < |pairs| ==> dist(pairs[t][0], pairs[t][1]) <= m
    requires m == 0.0 || exists t :: 0 <= t < |pairs| && m == dist(pairs[t][0], pairs[t][1])
    ensures forall i: nat, j: nat :: i < j < 4 ==> dist(i, j) <= m
    ensures m == 0.0 || exists i: nat, j: nat :: i < j < 4 && m == dist(i, j)
  {
    forall i: nat, j: nat | i < j < 4
      ensures dist(i, j) <= m
    {
      assert [i, j] in pairs;
      var t :| 0 <= t < |pairs| && pairs[t] == [i, j];
      assert dist(pairs[t][0], pairs[t][1]) <= m;
    }
    if m != 0.0 {
      var t :| 0 <= t < |pairs| && m == dist(pairs[t][0], pairs[t][1]);
      assert pairs[t] in pairs;
      assert pairs[t][0] < pairs[t][1] < 4;
    }
  }

  /** The 2-combinations of the indices 0, 1, 2, 3 are exactly the (i, j) with i < j < 4. */
  lemma IndexPairs(xs: seq<nat>)
    requires |xs| == 4 && forall i :: 0 <= i < 4 ==> xs[i] == i
    ensures ListsBoxPairs(Combinations(xs, 2))
  {
    assert Ascending(xs);
    PairsSound(xs);
    PairsComplete(xs);
    var pairs := Combinations(xs, 2);
    forall p | p in pairs
      ensures p[1] < 4
    {
      assert p[1] in xs;
    }
    forall i: nat, j: nat | i < j < 4
      ensures [i, j] in pairs
    {
      assert xs[i] == i && xs[j] == j;
    }
  }

  /** Each 2-combination of an ascending sequence is a pair of it at increasing positions. */
  lemma PairsSound(xs: seq<nat>)
    requires Ascending(xs)
    ensures forall p :: p in Combinations(xs, 2) ==> |p| == 2 && p[0] < p[1] && p[0] in xs && p[1] in xs
  {
    forall p | p in Combinations(xs, 2)
      ensures |p| == 2 && p[0] < p[1] && p[0] in xs && p[1] in xs
    {
      CombinationsMembership(xs, 2, p);
    }
  }

  /** Every pair of an ascending sequence at increasing positions is one of its 2-combinations. */
  lemma PairsComplete(xs: seq<nat>)
    requires Ascending(xs)
    ensures forall i, j :: 0 <= i < j < |xs| ==> [xs[i], xs[j]] in Combinations(xs, 2)
  {
    forall i, j | 0 <= i < j < |xs|
      ensures [xs[i], xs[j]] in Combinations(xs, 2)
    {
      var c := [xs[i], xs[j]];
      assert Ascending(c) by {
        assert c[0] < c[1];
      }
      assert Within(c, xs) by {
        assert c[0] == xs[i] && c[1] == xs[j];
      }
      CombinationsComplete(xs, c);
    }
  }
}
