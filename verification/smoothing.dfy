/**
 * The temporal smoother: a `deque(maxlen=10)` of recent raw colours per region
 * and the component-wise mean of its contents.
 */
module Smoothing {
  import opened Base
  import opened Colors

  /** Capacity of a history, Python's `HISTORY_LEN`. */
  const HistoryLen: nat := 10

  /** A history never holds more than `HistoryLen` samples. */
  type Window = h: seq<Rgb> | |h| <= HistoryLen

  /**
   * `after` is `before` with `s` appended, the oldest sample evicted once the window
   * is full: it keeps the most recent samples, in order, ending with `s`.
   */
  predicate Appended(before: seq<Rgb>, after: seq<Rgb>, s: Rgb) {
    && |after| == Min(|before| + 1, HistoryLen)
    && after[|after| - 1] == s
    && after[..|after| - 1] == before[|before| + 1 - |after|..]
  }

  /** `deque.append` on a full deque drops the oldest sample. */
  function Push(h: Window, s: Rgb): (r: Window)
    ensures Appended(h, r, s)
  {
    if |h| < HistoryLen then h + [s] else h[1..] + [s]
  }

  /** Appending a stream of samples one after the other. */
  function PushAll(h: Window, samples: seq<Rgb>): (r: Window)
    ensures |r| == Min(|h| + |samples|, HistoryLen)
    ensures |samples| > 0 ==> r[|r| - 1] == samples[|samples| - 1]
    decreases |samples|
  {
    if |samples| == 0 then h else PushAll(Push(h, samples[0]), samples[1..])
  }

  /** The last `min(|s|, HistoryLen)` elements of `s`. */
  function Recent(s: seq<Rgb>): (r: seq<Rgb>)
    ensures |r| == Min(|s|, HistoryLen)
  {
    s[|s| - Min(|s|, HistoryLen)..]
  }

  /**
   * A history fed from `h` with a stream holds the most recent samples of the
   * whole stream `h + samples`, in order.
   */
  lemma {:induction false} PushAllKeepsRecent(h: Window, samples: seq<Rgb>)
    ensures PushAll(h, samples) == Recent(h + samples)
    decreases |samples|
  {
    if |samples| == 0 {
      assert h + samples == h;
    } else {
      PushAllKeepsRecent(Push(h, samples[0]), samples[1..]);
      PushThenRecent(h, samples);
    }
  }

  /** Appending the first sample, then keeping the most recent of the rest. */
  lemma PushThenRecent(h: Window, samples: seq<Rgb>)
    requires |samples| > 0
    ensures Recent(Push(h, samples[0]) + samples[1..]) == Recent(h + samples)
  {
    var s0, rest := samples[0], samples[1..];
    PushIsRecent(h, s0);
    RecentOfRecent(h + [s0], rest);
    assert (h + [s0]) + rest == h + samples;
  }

  /** One append keeps the most recent samples of the history followed by the sample. */
  lemma PushIsRecent(h: Window, s: Rgb)
    ensures Push(h, s) == Recent(h + [s])
  {
    var r := Push(h, s);
    assert r[..|r| - 1] + [r[|r| - 1]] == r;
  }

  lemma RecentOfRecent(a: seq<Rgb>, b: seq<Rgb>)
    ensures Recent(Recent(a) + b) == Recent(a + b)
  {
    var ra := Recent(a);
    assert ra == a[|a| - |ra|..];
    var x := ra + b;
    var y := a + b;
    assert x == y[|a| - |ra|..];
  }

  /** Sums of each channel over a history. */
  function SumR(h: seq<Rgb>): real {
    if |h| == 0 then 0.0 else h[0].r + SumR(h[1..])
  }

  function SumG(h: seq<Rgb>): real {
    if |h| == 0 then 0.0 else h[0].g + SumG(h[1..])
  }

  function SumB(h: seq<Rgb>): real {
    if |h| == 0 then 0.0 else h[0].b + SumB(h[1..])
  }

  /** `np.mean(history, axis=0)`: the smoothed colour. */
  function Mean(h: seq<Rgb>): Rgb
    requires |h| > 0
  {
    var n := |h| as real;
    Rgb(SumR(h) / n, SumG(h) / n, SumB(h) / n)
  }

  /** Channel sums of a history of one colour. */
  lemma {:induction false} ConstantSums(h: seq<Rgb>, c: Rgb)
    requires forall i :: 0 <= i < |h| ==> h[i] == c
    ensures SumR(h) == |h| as real * c.r
    ensures SumG(h) == |h| as real * c.g
    ensures SumB(h) == |h| as real * c.b
  {
    if |h| > 0 {
      ConstantSums(h[1..], c);
    }
  }

  /** A history of identical samples smooths to that sample. */
  lemma ConstantMean(h: seq<Rgb>, c: Rgb)
    requires |h| > 0
    requires forall i :: 0 <= i < |h| ==> h[i] == c
    ensures Mean(h) == c
  {
    var n := |h| as real;
    ConstantSums(h, c);
    Cancel(SumR(h), n, c.r);
    Cancel(SumG(h), n, c.g);
    Cancel(SumB(h), n, c.b);
  }

  /**
   * After `HistoryLen` frames of the same colour, whatever came before has been
   * evicted and the smoothed colour is exactly that colour.
   */
  lemma Converges(h: Window, c: Rgb)
    ensures PushAll(h, seq(HistoryLen, _ => c)) == seq(HistoryLen, _ => c)
    ensures Mean(PushAll(h, seq(HistoryLen, _ => c))) == c
  {
    var cs := seq(HistoryLen, _ => c);
    PushAllKeepsRecent(h, cs);
    assert Recent(h + cs) == cs;
    ConstantMean(cs, c);
  }

  /** Channel sums of a history whose channels lie in [0, 255]. */
  lemma {:induction false} SumBounds(h: seq<Rgb>)
    requires forall i :: 0 <= i < |h| ==> RgbWithin(h[i], 0.0, 255.0)
    ensures 0.0 <= SumR(h) <= |h| as real * 255.0
    ensures 0.0 <= SumG(h) <= |h| as real * 255.0
    ensures 0.0 <= SumB(h) <= |h| as real * 255.0
  {
    if |h| > 0 {
      SumBounds(h[1..]);
    }
  }

  /** Smoothing samples with channels in [0, 255] gives a colour with channels in [0, 255]. */
  lemma MeanBounds(h: seq<Rgb>)
    requires |h| > 0
    requires forall i :: 0 <= i < |h| ==> RgbWithin(h[i], 0.0, 255.0)
    ensures RgbWithin(Mean(h), 0.0, 255.0)
  {
    SumBounds(h);
    var n := |h| as real;
    DivBounds(SumR(h), n);
    DivBounds(SumG(h), n);
    DivBounds(SumB(h), n);
  }

  lemma DivBounds(s: real, n: real)
    requires n > 0.0 && 0.0 <= s <= n * 255.0
    ensures 0.0 <= s / n <= 255.0
  {
  }
}
