/**
 * `itertools.combinations` over an ascending sequence of region indices: the
 * k-element sub-sequences in lexicographic order of positions.
 */
module Combos {

  /** Strictly increasing, hence free of duplicates. */
  predicate Ascending(s: seq<nat>) {
    forall i, j :: 0 <= i < j < |s| ==> s[i] < s[j]
  }

  /** Every element of `c` occurs in `xs`. */
  predicate Within(c: seq<nat>, xs: seq<nat>) {
    forall i :: 0 <= i < |c| ==> c[i] in xs
  }

  /** Puts `x` in front of every sequence of `cs`. */
  function Prepend(x: nat, cs: seq<seq<nat>>): (r: seq<seq<nat>>)
    ensures |r| == |cs|
    ensures forall i :: 0 <= i < |cs| ==> r[i] == [x] + cs[i]
  {
    seq(|cs|, i requires 0 <= i < |cs| => [x] + cs[i])
  }

  /**
   * `itertools.combinations(xs, k)`: those starting with `xs[0]` first, then those
   * drawn from the rest. (The source library stops early once fewer than `k`
   * elements remain; the output is the same.)
   */
  function Combinations(xs: seq<nat>, k: nat): (r: seq<seq<nat>>)
    ensures forall i :: 0 <= i < |r| ==> |r[i]| == k
    decreases |xs|
  {
    if k == 0 then [[]]
    else if |xs| == 0 then []
    else Prepend(xs[0], Combinations(xs[1..], k - 1)) + Combinations(xs[1..], k)
  }

  /** Every combination of an ascending sequence is ascending and drawn from it. */
  lemma {:induction false} CombinationsSound(xs: seq<nat>, k: nat)
    requires Ascending(xs)
    ensures forall c :: c in Combinations(xs, k) ==> Ascending(c) && Within(c, xs)
    decreases |xs|
  {
    if k > 0 && |xs| > 0 {
      var rest := xs[1..];
      CombinationsSound(rest, k - 1);
      CombinationsSound(rest, k);
      PrependSound(xs, Combinations(rest, k - 1));
      WithinTail(xs, Combinations(rest, k));
    }
  }

  /** Putting the head of an ascending `xs` in front of ascending picks from its tail. */
  lemma PrependSound(xs: seq<nat>, cs: seq<seq<nat>>)
    requires Ascending(xs) && |xs| > 0
    requires forall c :: c in cs ==> Ascending(c) && Within(c, xs[1..])
    ensures forall c :: c in Prepend(xs[0], cs) ==> Ascending(c) && Within(c, xs)
  {
    forall c | c in Prepend(xs[0], cs)
      ensures Ascending(c) && Within(c, xs)
    {
      var d := c[1..];
      assert d in cs;
      assert forall i :: 0 <= i < |d| ==> d[i] in xs[1..];
    }
  }

  /** Picks from the tail are picks from the whole. */
  lemma WithinTail(xs: seq<nat>, cs: seq<seq<nat>>)
    requires |xs| > 0
    requires forall c :: c in cs ==> Ascending(c) && Within(c, xs[1..])
    ensures forall c :: c in cs ==> Ascending(c) && Within(c, xs)
  {
  }

  /** Every ascending `k`-sequence drawn from an ascending `xs` is one of its combinations. */
  lemma {:induction false} CombinationsComplete(xs: seq<nat>, c: seq<nat>)
    requires Ascending(xs) && Ascending(c) && Within(c, xs)
    ensures c in Combinations(xs, |c|)
    decreases |xs|
  {
    if |c| > 0 {
      TailPicks(xs, c);
      var rest := xs[1..];
      if c[0] == xs[0] {
        var d := c[1..];
        CombinationsComplete(rest, d);
        PrependMember(xs[0], d, Combinations(rest, |c| - 1));
        assert c == [xs[0]] + d;
      } else {
        CombinationsComplete(rest, c);
      }
    }
  }

  /**
   * The later elements of an ascending pick from an ascending `xs` come from its tail,
   * and so do all of them when the pick does not start with the head.
   */
  lemma TailPicks(xs: seq<nat>, c: seq<nat>)
    requires Ascending(xs) && Ascending(c) && Within(c, xs) && |c| > 0
    ensures |xs| > 0
    ensures Ascending(c[1..]) && Within(c[1..], xs[1..])
    ensures c[0] != xs[0] ==> Within(c, xs[1..])
  {
    assert c[0] in xs;
    var j0 :| 0 <= j0 < |xs| && xs[j0] == c[0];
    forall i | 1 <= i < |c|
      ensures c[i] in xs[1..]
    {
      assert c[i] in xs;
      var j :| 0 <= j < |xs| && xs[j] == c[i];
      assert j0 < j;
    }
    assert forall i :: 0 <= i < |c[1..]| ==> c[1..][i] == c[i + 1];
    if c[0] != xs[0] {
      assert j0 > 0;
      assert c[0] in xs[1..];
    }
  }

  lemma PrependMember(x: nat, d: seq<nat>, cs: seq<seq<nat>>)
    requires d in cs
    ensures [x] + d in Prepend(x, cs)
  {
    var k :| 0 <= k < |cs| && cs[k] == d;
    assert Prepend(x, cs)[k] == [x] + d;
  }

  /** Membership in the combinations, both directions. */
  lemma CombinationsMembership(xs: seq<nat>, k: nat, c: seq<nat>)
    requires Ascending(xs)
    ensures c in Combinations(xs, k) <==> |c| == k && Ascending(c) && Within(c, xs)
  {
    CombinationsSound(xs, k);
    if |c| == k && Ascending(c) && Within(c, xs) {
      CombinationsComplete(xs, c);
    }
  }

  /** There are no combinations larger than the sequence itself. */
  lemma {:induction false} CombinationsTooLarge(xs: seq<nat>, k: nat)
    requires k > |xs|
    ensures Combinations(xs, k) == []
    decreases |xs|
  {
    if |xs| > 0 {
      CombinationsTooLarge(xs[1..], k - 1);
      CombinationsTooLarge(xs[1..], k);
      CombinationsStep(xs, k);
      assert Prepend(xs[0], []) == [];
    }
  }

  /** The only combination of full size is the sequence itself. */
  lemma {:induction false} CombinationsFull(xs: seq<nat>)
    ensures Combinations(xs, |xs|) == [xs]
    decreases |xs|
  {
    if |xs| > 0 {
      var rest := xs[1..];
      CombinationsFull(rest);
      CombinationsTooLarge(rest, |xs|);
      CombinationsStep(xs, |xs|);
      PrependOne(xs[0], rest);
      assert [xs[0]] + rest == xs;
    }
  }

  /** One unfolding of the definition for a non-empty sequence and a positive size. */
  lemma CombinationsStep(xs: seq<nat>, k: nat)
    requires |xs| > 0 && k > 0
    ensures Combinations(xs, k) == Prepend(xs[0], Combinations(xs[1..], k - 1)) + Combinations(xs[1..], k)
  {
  }

  lemma PrependOne(x: nat, s: seq<nat>)
    ensures Prepend(x, [s]) == [[x] + s]
  {
  }

  /** The singletons, in order. */
  lemma {:induction false} CombinationsOfOne(xs: seq<nat>)
    ensures Combinations(xs, 1) == seq(|xs|, i requires 0 <= i < |xs| => [xs[i]])
    decreases |xs|
  {
    if |xs| > 0 {
      CombinationsOfOne(xs[1..]);
      assert Combinations(xs[1..], 0) == [[]];
      assert [xs[0]] + [] == [xs[0]];
      assert Prepend(xs[0], [[]])[0] == [xs[0]];
      var tail := seq(|xs| - 1, i requires 0 <= i < |xs| - 1 => [xs[1..][i]]);
      assert Combinations(xs, 1) == [[xs[0]]] + tail;
      assert [[xs[0]]] + tail == seq(|xs|, i requires 0 <= i < |xs| => [xs[i]]);
    }
  }

  /** `a` precedes `b` lexicographically: they agree up to some position where `a` is smaller. */
  predicate LexLess(a: seq<nat>, b: seq<nat>)
    decreases |a|
  {
    |a| > 0 && |b| > 0 && (a[0] < b[0] || (a[0] == b[0] && LexLess(a[1..], b[1..])))
  }

  /** Each sequence of `cs` precedes every later one lexicographically. */
  predicate LexSorted(cs: seq<seq<nat>>) {
    forall i, j :: 0 <= i < j < |cs| ==> LexLess(cs[i], cs[j])
  }

  /**
   * Combinations of an ascending sequence come out in strictly increasing
   * lexicographic order, hence without duplicates.
   */
  lemma CombinationsSorted(xs: seq<nat>, k: nat)
    requires Ascending(xs)
    ensures LexSorted(Combinations(xs, k))
  {
    forall i, j | 0 <= i < j < |Combinations(xs, k)|
      ensures LexLess(Combinations(xs, k)[i], Combinations(xs, k)[j])
    {
      CombinationsOrdered(xs, k, i, j);
    }
  }

  /** An earlier combination precedes a later one. */
  lemma {:induction false} CombinationsOrdered(xs: seq<nat>, k: nat, i: nat, j: nat)
    requires Ascending(xs) && i < j < |Combinations(xs, k)|
    ensures LexLess(Combinations(xs, k)[i], Combinations(xs, k)[j])
    decreases |xs|, 1
  {
    assert k > 0 && |xs| > 0;
    var n := |Combinations(xs[1..], k - 1)|;
    if j < n {
      FirstsOrdered(xs, k, i, j);
    } else if i >= n {
      OthersOrdered(xs, k, i, j);
    } else {
      AcrossOrdered(xs, k, i, j);
    }
  }

  /** Two combinations with the head are ordered as their tails are. */
  lemma {:induction false} FirstsOrdered(xs: seq<nat>, k: nat, i: nat, j: nat)
    requires Ascending(xs) && |xs| > 0 && k > 0 && i < j < |Combinations(xs[1..], k - 1)|
    ensures j < |Combinations(xs, k)|
    ensures LexLess(Combinations(xs, k)[i], Combinations(xs, k)[j])
    decreases |xs|, 0
  {
    var firsts := Combinations(xs[1..], k - 1);
    assert Ascending(xs[1..]);
    CombinationsOrdered(xs[1..], k - 1, i, j);
    CombinationsStep(xs, k);
    PrependLess(xs[0], firsts[i], firsts[j]);
  }

  /** Two combinations without the head are ordered as in the tail's combinations. */
  lemma {:induction false} OthersOrdered(xs: seq<nat>, k: nat, i: nat, j: nat)
    requires Ascending(xs) && |xs| > 0 && k > 0
    requires |Combinations(xs[1..], k - 1)| <= i < j < |Combinations(xs, k)|
    ensures LexLess(Combinations(xs, k)[i], Combinations(xs, k)[j])
    decreases |xs|, 0
  {
    var n := |Combinations(xs[1..], k - 1)|;
    assert Ascending(xs[1..]);
    CombinationsStep(xs, k);
    CombinationsOrdered(xs[1..], k, i - n, j - n);
  }

  /** A combination with the head precedes every one without it. */
  lemma AcrossOrdered(xs: seq<nat>, k: nat, i: nat, j: nat)
    requires Ascending(xs) && |xs| > 0 && k > 0
    requires i < |Combinations(xs[1..], k - 1)| <= j < |Combinations(xs, k)|
    ensures LexLess(Combinations(xs, k)[i], Combinations(xs, k)[j])
  {
    var n := |Combinations(xs[1..], k - 1)|;
    CombinationsStep(xs, k);
    var c := Combinations(xs[1..], k)[j - n];
    assert c in Combinations(xs[1..], k);
    LaterStartAfterHead(xs, k);
    HeadLess(xs[0], Combinations(xs[1..], k - 1)[i], c);
  }

  /** The combinations drawn from the tail all start above the head. */
  lemma LaterStartAfterHead(xs: seq<nat>, k: nat)
    requires Ascending(xs) && |xs| > 0 && k > 0
    ensures forall c :: c in Combinations(xs[1..], k) ==> |c| > 0 && xs[0] < c[0]
  {
    CombinationsSound(xs[1..], k);
    forall c | c in Combinations(xs[1..], k)
      ensures |c| > 0 && xs[0] < c[0]
    {
      assert c[0] in xs[1..];
    }
  }

  /** Combinations of an ascending sequence are pairwise distinct. */
  lemma CombinationsDistinct(xs: seq<nat>, k: nat)
    requires Ascending(xs)
    ensures forall i, j :: 0 <= i < j < |Combinations(xs, k)| ==> Combinations(xs, k)[i] != Combinations(xs, k)[j]
  {
    CombinationsSorted(xs, k);
    forall i, j | 0 <= i < j < |Combinations(xs, k)|
      ensures Combinations(xs, k)[i] != Combinations(xs, k)[j]
    {
      LexLessDiffers(Combinations(xs, k)[i], Combinations(xs, k)[j]);
    }
  }

  /** Lexicographic precedence is strict. */
  lemma {:induction false} LexLessDiffers(a: seq<nat>, b: seq<nat>)
    requires LexLess(a, b)
    ensures a != b
    decreases |a|
  {
    if a[0] == b[0] {
      LexLessDiffers(a[1..], b[1..]);
    }
  }

  /** Putting the same element in front keeps the lexicographic order. */
  lemma PrependLess(x: nat, a: seq<nat>, b: seq<nat>)
    requires LexLess(a, b)
    ensures LexLess([x] + a, [x] + b)
  {
    assert ([x] + a)[1..] == a && ([x] + b)[1..] == b;
  }

  /** A sequence starting with `x` precedes every sequence starting above `x`. */
  lemma HeadLess(x: nat, d: seq<nat>, c: seq<nat>)
    requires |c| > 0 && x < c[0]
    ensures LexLess([x] + d, c)
  {
  }

  /** An ascending sequence drawn from an ascending `xs` is no longer than `xs`. */
  lemma LengthWithin(xs: seq<nat>, c: seq<nat>)
    requires Ascending(xs) && Ascending(c) && Within(c, xs)
    ensures |c| <= |xs|
  {
    CombinationsComplete(xs, c);
    if |c| > |xs| {
      CombinationsTooLarge(xs, |c|);
    }
  }
}
