/**
 * The dominant-colour extractor: a lightness and saturation filter, the fallback
 * to the whole block, and the reduction of the surviving pixels to one colour.
 * K-Means clustering is left abstract: it is a parameter that either yields a
 * cluster centre or fails, in which case the arithmetic mean is used.
 */
module Extractor {
  import opened Base
  import opened Colors

  /** Lightness window, exclusive on both sides, on the sum of the three channels. */
  const DarkSum: int := 60
  const BrightSum: int := 705

  /** Pixels whose channel spread is at most this are treated as washed out. */
  const MinSpread: int := 20

  /** Channel sum, the lightness proxy. */
  function Lightness(p: Pixel): int {
    p.b + p.g + p.r
  }

  /** max(channel) - min(channel), the saturation proxy. */
  function Spread(p: Pixel): (s: int)
    ensures 0 <= s <= 255
    ensures s + p.b >= p.g && s + p.b >= p.r && s + p.g >= p.b && s + p.g >= p.r && s + p.r >= p.b && s + p.r >= p.g
    ensures s == p.b - p.g || s == p.g - p.b || s == p.b - p.r || s == p.r - p.b || s == p.g - p.r || s == p.r - p.g
  {
    Max(Max(p.b, p.g), p.r) - Min(Min(p.b, p.g), p.r)
  }

  /** A pixel survives both filters. */
  predicate Keep(p: Pixel) {
    DarkSum < Lightness(p) < BrightSum && Spread(p) > MinSpread
  }

  /** `pixels[mask]`: the pixels passing both filters, in their original order. */
  function Filter(ps: seq<Pixel>): (r: seq<Pixel>)
    ensures |r| <= |ps|
    ensures forall i :: 0 <= i < |r| ==> Keep(r[i])
    ensures forall p :: multiset(r)[p] == if Keep(p) then multiset(ps)[p] else 0
  {
    if |ps| == 0 then []
    else
      var rest := Filter(ps[1..]);
      assert ps == [ps[0]] + ps[1..];
      if Keep(ps[0]) then [ps[0]] + rest else rest
  }

  /** Filtering distributes over concatenation: kept pixels stay in their original order. */
  lemma {:induction false} FilterAppend(a: seq<Pixel>, b: seq<Pixel>)
    ensures Filter(a + b) == Filter(a) + Filter(b)
  {
    if |a| > 0 {
      assert (a + b)[1..] == a[1..] + b;
      FilterAppend(a[1..], b);
    } else {
      assert a + b == b;
    }
  }

  /** A single pixel is kept exactly when it passes both filters. */
  lemma FilterOne(p: Pixel)
    ensures Filter([p]) == if Keep(p) then [p] else []
  {
    assert [p][1..] == [];
  }

  /** The pixels handed to clustering: the filtered ones, or the whole block if none survive. */
  function Candidates(ps: seq<Pixel>): (r: seq<Pixel>)
    ensures |r| == 0 <==> |ps| == 0
  {
    var kept := Filter(ps);
    if |kept| == 0 then ps else kept
  }

  /** Sums of each channel, as reals. */
  function SumB(ps: seq<Pixel>): real {
    if |ps| == 0 then 0.0 else ps[0].b as real + SumB(ps[1..])
  }

  function SumG(ps: seq<Pixel>): real {
    if |ps| == 0 then 0.0 else ps[0].g as real + SumG(ps[1..])
  }

  function SumR(ps: seq<Pixel>): real {
    if |ps| == 0 then 0.0 else ps[0].r as real + SumR(ps[1..])
  }

  /** `np.mean(pixels, axis=0)`, still in blue-green-red order. */
  function Mean(ps: seq<Pixel>): Bgr
    requires |ps| > 0
  {
    var n := |ps| as real;
    Bgr(SumB(ps) / n, SumG(ps) / n, SumR(ps) / n)
  }

  /**
   * The dominant colour of a block. `cluster` stands for the K-Means step: it yields
   * the centre of the most populous cluster (blue-green-red), or None when it raises.
   */
  function DominantColor(ps: seq<Pixel>, cluster: seq<Pixel> -> Option<Bgr>): (c: Rgb)
    ensures |ps| == 0 ==> c == Black
    ensures |ps| > 0 && cluster(Candidates(ps)).Some? ==> c == ToRgb(cluster(Candidates(ps)).value)
    ensures |ps| > 0 && cluster(Candidates(ps)).None? ==> c == ToRgb(Mean(Candidates(ps)))
  {
    var pixels := Candidates(ps);
    if |pixels| == 0 then Black
    else
      match cluster(pixels)
      case Some(centre) => ToRgb(centre)
      case None => ToRgb(Mean(pixels))
  }

  /** The candidates are exactly the filtered pixels when any survive, else the whole block. */
  lemma {:induction false} CandidatesSpec(ps: seq<Pixel>)
    ensures (exists i :: 0 <= i < |ps| && Keep(ps[i])) ==>
      forall p :: multiset(Candidates(ps))[p] == if Keep(p) then multiset(ps)[p] else 0
    ensures (forall i :: 0 <= i < |ps| ==> !Keep(ps[i])) ==> Candidates(ps) == ps
  {
    if exists i :: 0 <= i < |ps| && Keep(ps[i]) {
      var i :| 0 <= i < |ps| && Keep(ps[i]);
      assert multiset(Filter(ps))[ps[i]] > 0;
    }
  }

  /**
   * A block whose pixels are all too dark is handed to clustering whole rather than
   * dropped; its mean is used only when clustering raises.
   */
  lemma DarkBlockUsesWholeBlock(ps: seq<Pixel>, cluster: seq<Pixel> -> Option<Bgr>)
    requires |ps| > 0
    requires forall i :: 0 <= i < |ps| ==> Lightness(ps[i]) <= DarkSum
    ensures Candidates(ps) == ps
    ensures DominantColor(ps, cluster) == match cluster(ps)
      case Some(c) => ToRgb(c)
      case None => ToRgb(Mean(ps))
  {
    CandidatesSpec(ps);
  }

  /** Summing a block of one colour multiplies that colour by the block size. */
  lemma {:induction false} ConstantSums(ps: seq<Pixel>, p: Pixel)
    requires forall i :: 0 <= i < |ps| ==> ps[i] == p
    ensures SumB(ps) == |ps| as real * p.b as real
    ensures SumG(ps) == |ps| as real * p.g as real
    ensures SumR(ps) == |ps| as real * p.r as real
  {
    if |ps| > 0 {
      ConstantSums(ps[1..], p);
    }
  }

  /** The mean of a block of one colour is that colour. */
  lemma ConstantMean(ps: seq<Pixel>, p: Pixel)
    requires |ps| > 0
    requires forall i :: 0 <= i < |ps| ==> ps[i] == p
    ensures Mean(ps) == Bgr(p.b as real, p.g as real, p.r as real)
  {
    ConstantSums(ps, p);
    MeanOfSums(ps, p.b as real, p.g as real, p.r as real);
  }

  /** Channel sums of `size` times a colour give that colour as the mean. */
  lemma MeanOfSums(ps: seq<Pixel>, b: real, g: real, r: real)
    requires |ps| > 0
    requires SumB(ps) == |ps| as real * b && SumG(ps) == |ps| as real * g && SumR(ps) == |ps| as real * r
    ensures Mean(ps) == Bgr(b, g, r)
  {
    var n := |ps| as real;
    Cancel(SumB(ps), n, b);
    Cancel(SumG(ps), n, g);
    Cancel(SumR(ps), n, r);
  }

  /**
   * A block of one constant colour, reduced by the mean fallback, yields exactly
   * that colour with its channels put in red-green-blue order.
   */
  lemma ConstantBlockColor(ps: seq<Pixel>, p: Pixel, cluster: seq<Pixel> -> Option<Bgr>)
    requires |ps| > 0
    requires forall i :: 0 <= i < |ps| ==> ps[i] == p
    requires cluster(Candidates(ps)).None?
    ensures DominantColor(ps, cluster) == Rgb(p.r as real, p.g as real, p.b as real)
  {
    var c := Candidates(ps);
    forall i | 0 <= i < |c|
      ensures c[i] == p
    {
      if c != ps {
        assert multiset(Filter(ps))[c[i]] > 0;
        assert c[i] in ps;
      }
    }
    ConstantMean(c, p);
  }

  /**
   * The K-Means path on a one-colour block: a cluster centre is the mean of the
   * non-empty set of pixels assigned to it, so it is again the block's colour.
   */
  lemma ConstantBlockClustered(ps: seq<Pixel>, p: Pixel, cluster: seq<Pixel> -> Option<Bgr>, members: seq<Pixel>)
    requires forall i :: 0 <= i < |ps| ==> ps[i] == p
    requires |members| > 0 && multiset(members) <= multiset(Candidates(ps))
    requires cluster(Candidates(ps)) == Some(Mean(members))
    ensures DominantColor(ps, cluster) == Rgb(p.r as real, p.g as real, p.b as real)
  {
    var c := Candidates(ps);
    assert |ps| > 0 by {
      assert members[0] in multiset(c);
    }
    forall i | 0 <= i < |members|
      ensures members[i] == p
    {
      assert members[i] in multiset(c);
      CandidateOfConstant(ps, p, members[i]);
    }
    ConstantMean(members, p);
  }

  /** Every candidate of a one-colour block is that colour. */
  lemma CandidateOfConstant(ps: seq<Pixel>, p: Pixel, m: Pixel)
    requires forall i :: 0 <= i < |ps| ==> ps[i] == p
    requires m in Candidates(ps)
    ensures m == p
  {
    if Candidates(ps) != ps {
      assert multiset(Filter(ps))[m] > 0;
    }
    assert m in ps;
  }

  /** Channel sums of bytes stay within [0, 255 * size]. */
  lemma {:induction false} SumBounds(ps: seq<Pixel>)
    ensures 0.0 <= SumB(ps) <= 255.0 * |ps| as real
    ensures 0.0 <= SumG(ps) <= 255.0 * |ps| as real
    ensures 0.0 <= SumR(ps) <= 255.0 * |ps| as real
  {
    if |ps| > 0 {
      SumBounds(ps[1..]);
    }
  }

  /** The mean of a non-empty block is a colour with channels in [0, 255]. */
  lemma MeanBounds(ps: seq<Pixel>)
    requires |ps| > 0
    ensures RgbWithin(ToRgb(Mean(ps)), 0.0, 255.0)
  {
    SumBounds(ps);
    var n := |ps| as real;
    assert SumB(ps) / n <= 255.0;
    assert SumG(ps) / n <= 255.0;
    assert SumR(ps) / n <= 255.0;
  }
}
