/** Status derivation: the verdict and the human-readable message built from the groups. */
module Status {
  import Combos
  import opened Grouping

  datatype Verdict = Pass | Fail | Mixed

  /** The `pass_fail` string published for a verdict. */
  function VerdictText(v: Verdict): string {
    match v
    case Pass => "PASS"
    case Fail => "FAIL"
    case Mixed => "MIXED"
  }

  /** What a processed frame publishes about consistency. */
  datatype Report = Report(verdict: Verdict, message: string)

  const AllMatch: string := "All 4 Match (PASS)"
  const AllDifferent: string := "All Different"
  const SimilarPrefix: string := "Similar: "

  /** Python's `str(n)` for a natural number. */
  function Decimal(n: nat): (s: string)
    ensures |s| >= 1
    ensures forall i :: 0 <= i < |s| ==> '0' <= s[i] <= '9'
    ensures n < 10 ==> s == [('0' as int + n) as char]
  {
    if n < 10 then [('0' as int + n) as char] else Decimal(n / 10) + [('0' as int + n % 10) as char]
  }

  /** Reads a string of decimal digits back as a number. */
  function ParseDecimal(s: string): nat {
    if |s| == 0 then 0 else ParseDecimal(s[..|s| - 1]) * 10 + ((s[|s| - 1] as int - '0' as int) % 10)
  }

  lemma {:induction false} DecimalRoundTrip(n: nat)
    ensures ParseDecimal(Decimal(n)) == n
  {
    if n >= 10 {
      var s := Decimal(n);
      var q, d := n / 10, n % 10;
      assert s[..|s| - 1] == Decimal(q);
      assert (s[|s| - 1] as int - '0' as int) % 10 == d;
      DecimalRoundTrip(q);
      assert q * 10 + d == n;
    }
  }

  /** `sep.join(parts)`. */
  function Join(sep: string, parts: seq<string>): string {
    if |parts| == 0 then ""
    else if |parts| == 1 then parts[0]
    else parts[0] + sep + Join(sep, parts[1..])
  }

  /** The 1-based region numbers of a group, as text. */
  function Numbers(g: seq<nat>): seq<string> {
    seq(|g|, i requires 0 <= i < |g| => Decimal(g[i] + 1))
  }

  /** One group rendered as "[1+2]". */
  function GroupText(g: seq<nat>): string {
    "[" + Join("+", Numbers(g)) + "]"
  }

  /** The groups rendered one after the other, separated by ", ". */
  function Listing(gs: seq<seq<nat>>): string {
    Join(", ", seq(|gs|, k requires 0 <= k < |gs| => GroupText(gs[k])))
  }

  /** The verdict and message for a list of groups, in the order they were produced. */
  function Derive(gs: seq<seq<nat>>): (r: Report)
    ensures r.verdict == Pass <==> |gs| == 1
    ensures r.verdict == Fail <==> |gs| == 4
    ensures r.verdict == Pass ==> r.message == AllMatch
    ensures r.verdict == Fail ==> r.message == AllDifferent
    ensures r.verdict == Mixed ==> r.message == SimilarPrefix + Listing(gs)
  {
    if |gs| == 1 then Report(Pass, AllMatch)
    else if |gs| == 4 then Report(Fail, AllDifferent)
    else Report(Mixed, SimilarPrefix + Listing(gs))
  }

  /**
   * Reads a listing back, one character at a time: '[' opens a new group, a digit
   * 1-9 adds the region it numbers to the open group, anything else is skipped.
   */
  function Scan(acc: seq<seq<nat>>, s: string): seq<seq<nat>>
    decreases |s|
  {
    if |s| == 0 then acc else Scan(Feed(acc, s[0]), s[1..])
  }

  function Feed(acc: seq<seq<nat>>, c: char): seq<seq<nat>> {
    if c == '[' then acc + [[]]
    else if '1' <= c <= '9' && |acc| > 0 then acc[..|acc| - 1] + [acc[|acc| - 1] + [(c as int - '1' as int) as nat]]
    else acc
  }

  /** Every region number is a single decimal digit once made 1-based. */
  predicate SmallGroups(gs: seq<seq<nat>>) {
    forall k, i :: 0 <= k < |gs| && 0 <= i < |gs[k]| ==> gs[k][i] < 9
  }

  function ParseListing(s: string): seq<seq<nat>> {
    Scan([], s)
  }

  /** Scanning a concatenation scans the parts one after the other. */
  lemma {:induction false} ScanAppend(acc: seq<seq<nat>>, a: string, b: string)
    ensures Scan(acc, a + b) == Scan(Scan(acc, a), b)
    decreases |a|
  {
    if |a| > 0 {
      assert (a + b)[0] == a[0];
      assert (a + b)[1..] == a[1..] + b;
      ScanAppend(Feed(acc, a[0]), a[1..], b);
    } else {
      assert a + b == b;
    }
  }

  /** Characters that are neither '[' nor a digit 1-9 leave the groups read so far alone. */
  lemma {:induction false} ScanSkips(acc: seq<seq<nat>>, s: string)
    requires forall i :: 0 <= i < |s| ==> s[i] != '[' && !('1' <= s[i] <= '9')
    ensures Scan(acc, s) == acc
    decreases |s|
  {
    if |s| > 0 {
      ScanSkips(acc, s[1..]);
    }
  }

  /** The numeral of region `x` adds `x` to the open group. */
  lemma ScanNumber(acc: seq<seq<nat>>, open: seq<nat>, x: nat)
    requires x < 9
    ensures Scan(acc + [open], Decimal(x + 1)) == acc + [open + [x]]
  {
    var c := ('0' as int + x + 1) as char;
    assert Decimal(x + 1) == [c];
    assert Feed(acc + [open], c) == acc + [open + [x]];
  }

  /** The '+'-joined numerals of a group add its members to the open group, in order. */
  lemma {:induction false} ScanNumbers(acc: seq<seq<nat>>, open: seq<nat>, g: seq<nat>)
    requires |g| > 0 && forall i :: 0 <= i < |g| ==> g[i] < 9
    ensures Scan(acc + [open], Join("+", Numbers(g))) == acc + [open + g]
    decreases |g|
  {
    var ns := Numbers(g);
    ScanNumber(acc, open, g[0]);
    if |g| == 1 {
      assert open + g == open + [g[0]];
    } else {
      assert ns[1..] == Numbers(g[1..]);
      ScanNumberThen(acc, open, g[0], Join("+", ns[1..]));
      ScanNumbers(acc, open + [g[0]], g[1..]);
      assert open + [g[0]] + g[1..] == open + g;
    }
  }

  /** A numeral followed by '+' adds its region and leaves the rest to be read. */
  lemma ScanNumberThen(acc: seq<seq<nat>>, open: seq<nat>, x: nat, rest: string)
    requires x < 9
    ensures Scan(acc + [open], Decimal(x + 1) + "+" + rest) == Scan(acc + [open + [x]], rest)
  {
    ScanAppend(acc + [open], Decimal(x + 1) + "+", rest);
    ScanAppend(acc + [open], Decimal(x + 1), "+");
    ScanNumber(acc, open, x);
    ScanSkips(acc + [open + [x]], "+");
  }

  /** A group's text adds exactly that group. */
  lemma ScanGroup(acc: seq<seq<nat>>, g: seq<nat>)
    requires forall i :: 0 <= i < |g| ==> g[i] < 9
    ensures Scan(acc, GroupText(g)) == acc + [g]
  {
    var inner := Join("+", Numbers(g));
    ScanAppend(acc, "[" + inner, "]");
    ScanAppend(acc, "[", inner);
    assert Scan(acc, "[") == acc + [[]] by {
      assert Feed(acc, '[') == acc + [[]];
    }
    if |g| > 0 {
      ScanNumbers(acc, [], g);
      assert [] + g == g;
    } else {
      assert Numbers(g) == [];
    }
    ScanSkips(acc + [g], "]");
  }

  /** A group's text followed by ", " adds the group and leaves the rest to be read. */
  lemma ScanGroupThen(acc: seq<seq<nat>>, g: seq<nat>, rest: string)
    requires forall i :: 0 <= i < |g| ==> g[i] < 9
    ensures Scan(acc, GroupText(g) + ", " + rest) == Scan(acc + [g], rest)
  {
    ScanAppend(acc, GroupText(g) + ", ", rest);
    ScanAppend(acc, GroupText(g), ", ");
    ScanGroup(acc, g);
    ScanSkips(acc + [g], ", ");
  }

  /** A listing adds its groups, in order. */
  lemma {:induction false} ScanListing(acc: seq<seq<nat>>, gs: seq<seq<nat>>)
    requires SmallGroups(gs)
    ensures Scan(acc, Listing(gs)) == acc + gs
    decreases |gs|
  {
    if |gs| == 0 {
    } else if |gs| == 1 {
      ScanGroup(acc, gs[0]);
    } else {
      ListingCons(gs);
      ScanGroupThen(acc, gs[0], Listing(gs[1..]));
      ScanListing(acc + [gs[0]], gs[1..]);
      assert gs == [gs[0]] + gs[1..];
      assert acc + [gs[0]] + gs[1..] == acc + gs;
    }
  }

  /** A listing of two or more groups is the first group's text, ", ", and the listing of the rest. */
  lemma ListingCons(gs: seq<seq<nat>>)
    requires |gs| > 1
    ensures Listing(gs) == GroupText(gs[0]) + ", " + Listing(gs[1..])
  {
    var texts := seq(|gs|, k requires 0 <= k < |gs| => GroupText(gs[k]));
    var tail := seq(|gs| - 1, k requires 0 <= k < |gs| - 1 => GroupText(gs[1..][k]));
    assert texts[1..] == tail;
  }

  /** The listing names every group and every member: reading it back gives the groups. */
  lemma ListingRoundTrip(gs: seq<seq<nat>>)
    requires SmallGroups(gs)
    ensures ParseListing(Listing(gs)) == gs
  {
    ScanListing([], gs);
  }

  /** A MIXED message reads back to the groups it was made from. */
  lemma MixedMessageRoundTrip(gs: seq<seq<nat>>)
    requires SmallGroups(gs)
    requires |gs| != 1 && |gs| != 4
    ensures Derive(gs).verdict == Mixed
    ensures ParseListing(Derive(gs).message) == gs
  {
    ScanMessage([], gs);
    assert [] + gs == gs;
  }

  /** "Similar: " followed by the listing adds the groups of the listing. */
  lemma ScanMessage(acc: seq<seq<nat>>, gs: seq<seq<nat>>)
    requires SmallGroups(gs)
    ensures Scan(acc, SimilarPrefix + Listing(gs)) == acc + gs
  {
    ScanAppend(acc, SimilarPrefix, Listing(gs));
    ScanPrefix(acc);
    ScanListing(acc, gs);
  }

  /** The prefix "Similar: " holds no bracket and no digit, so it adds nothing. */
  lemma ScanPrefix(acc: seq<seq<nat>>)
    ensures Scan(acc, SimilarPrefix) == acc
  {
    ScanSkips(acc, SimilarPrefix);
  }

  /** The verdict for the four regions under a distance. */
  function Judge(dist: Dist): Report {
    Derive(Groups(dist))
  }

  /** The consistency groups of the four regions, in the order they are produced. */
  function Groups(dist: Dist): seq<seq<nat>> {
    Partition(dist, Boxes)
  }

  /** Consistency of the four regions is the six pairwise distances being within the threshold. */
  lemma BoxesConsistent(dist: Dist)
    ensures Consistent(dist, Boxes) <==> forall i, j :: 0 <= i < j < 4 ==> dist(i, j) <= Threshold
  {
    if forall i, j :: 0 <= i < j < 4 ==> dist(i, j) <= Threshold {
      forall i, j | 0 <= i < j < |Boxes|
        ensures dist(Boxes[i], Boxes[j]) <= Threshold
      {
        assert Boxes[i] == i && Boxes[j] == j;
      }
    }
    if Consistent(dist, Boxes) {
      forall i: nat, j: nat | 0 <= i < j < 4
        ensures dist(i, j) <= Threshold
      {
        assert Boxes[i] == i && Boxes[j] == j;
      }
    }
  }

  lemma BoxesFar(dist: Dist)
    ensures NoClosePair(dist, Boxes) <==> forall i, j :: 0 <= i < j < 4 ==> dist(i, j) > Threshold
  {
    if forall i, j :: 0 <= i < j < 4 ==> dist(i, j) > Threshold {
      forall i, j | 0 <= i < j < |Boxes|
        ensures dist(Boxes[i], Boxes[j]) > Threshold
      {
        assert Boxes[i] == i && Boxes[j] == j;
      }
    }
    if NoClosePair(dist, Boxes) {
      forall i: nat, j: nat | 0 <= i < j < 4
        ensures dist(i, j) > Threshold
      {
        assert Boxes[i] == i && Boxes[j] == j;
      }
    }
  }

  /** PASS exactly when all six pairwise distances are within the threshold. */
  lemma PassIffAllClose(dist: Dist)
    ensures Judge(dist).verdict == Pass <==> forall i, j :: 0 <= i < j < 4 ==> dist(i, j) <= Threshold
  {
    OneGroupIffConsistent(dist, Boxes);
    BoxesConsistent(dist);
  }

  /** FAIL exactly when all six pairwise distances exceed the threshold. */
  lemma FailIffAllFar(dist: Dist)
    ensures Judge(dist).verdict == Fail <==> forall i, j :: 0 <= i < j < 4 ==> dist(i, j) > Threshold
  {
    BoxesAscending();
    FailOfPool(dist, Boxes);
    BoxesFar(dist);
  }

  /** For a pool of four regions, FAIL exactly when no two of them are within the threshold. */
  lemma FailOfPool(dist: Dist, xs: seq<nat>)
    requires Combos.Ascending(xs) && |xs| == 4
    ensures Derive(Partition(dist, xs)).verdict == Fail <==> NoClosePair(dist, xs)
  {
    AllSingletonsIffNoClosePair(dist, xs);
  }

  /** A MIXED message for the four regions reads back to exactly the groups the grouper formed. */
  lemma MixedMessageNamesGroups(dist: Dist)
    ensures Judge(dist).verdict == Mixed ==> ParseListing(Judge(dist).message) == Groups(dist)
  {
    BoxesAscending();
    assert forall i :: 0 <= i < |Boxes| ==> Boxes[i] < 9;
    MixedMessageOfPool(dist, Boxes);
  }

  /** The same for any pool of regions numbered below 9. */
  lemma MixedMessageOfPool(dist: Dist, xs: seq<nat>)
    requires Combos.Ascending(xs) && forall i :: 0 <= i < |xs| ==> xs[i] < 9
    ensures Derive(Partition(dist, xs)).verdict == Mixed ==>
      ParseListing(Derive(Partition(dist, xs)).message) == Partition(dist, xs)
  {
    SmallMembers(dist, xs);
    MixedFromSmall(Partition(dist, xs));
  }

  lemma MixedFromSmall(gs: seq<seq<nat>>)
    requires SmallGroups(gs)
    ensures Derive(gs).verdict == Mixed ==> ParseListing(Derive(gs).message) == gs
  {
    if |gs| != 1 && |gs| != 4 {
      MixedMessageRoundTrip(gs);
    }
  }

  /** Groups are drawn from the pool, so regions numbered below 9 give groups of such regions. */
  lemma SmallMembers(dist: Dist, xs: seq<nat>)
    requires Combos.Ascending(xs) && forall i :: 0 <= i < |xs| ==> xs[i] < 9
    ensures SmallGroups(Partition(dist, xs))
  {
    var gs := Partition(dist, xs);
    forall k, i | 0 <= k < |gs| && 0 <= i < |gs[k]|
      ensures gs[k][i] < 9
    {
      assert gs[k][i] in xs;
    }
  }

  /** Two close pairs far from each other: a MIXED verdict listing both pairs. */
  lemma TwoPairsMessage(dist: Dist)
    requires dist(0, 1) <= Threshold && dist(2, 3) <= Threshold
    requires dist(0, 2) > Threshold && dist(0, 3) > Threshold
    requires dist(1, 2) > Threshold && dist(1, 3) > Threshold
    ensures Judge(dist) == Report(Mixed, "Similar: [1+2], [3+4]")
  {
    TwoPairs(dist);
    TwoPairsReport();
  }

  lemma TwoPairsReport()
    ensures Derive([[0, 1], [2, 3]]) == Report(Mixed, "Similar: [1+2], [3+4]")
  {
    TwoPairsListing();
    assert SimilarPrefix + "[1+2], [3+4]" == "Similar: [1+2], [3+4]";
  }

  lemma TwoPairsListing()
    ensures Listing([[0, 1], [2, 3]]) == "[1+2], [3+4]"
  {
    FirstPairText();
    SecondPairText();
    ListingOfTwo([0, 1], [2, 3]);
  }

  lemma FirstPairText()
    ensures GroupText([0, 1]) == "[1+2]"
  {
    PairText(0, 1);
    assert Decimal(1) == "1" && Decimal(2) == "2";
  }

  lemma SecondPairText()
    ensures GroupText([2, 3]) == "[3+4]"
  {
    PairText(2, 3);
    assert Decimal(3) == "3" && Decimal(4) == "4";
  }

  lemma PairText(a: nat, b: nat)
    ensures GroupText([a, b]) == "[" + Decimal(a + 1) + "+" + Decimal(b + 1) + "]"
  {
    var ns := Numbers([a, b]);
    assert ns == [Decimal(a + 1), Decimal(b + 1)];
    JoinOfTwo("+", Decimal(a + 1), Decimal(b + 1));
  }

  lemma JoinOfTwo(sep: string, x: string, y: string)
    ensures Join(sep, [x, y]) == x + sep + y
  {
    assert [x, y][1..] == [y];
  }

  lemma ListingOfTwo(g1: seq<nat>, g2: seq<nat>)
    ensures Listing([g1, g2]) == GroupText(g1) + ", " + GroupText(g2)
  {
    var texts := seq(2, k requires 0 <= k < 2 => GroupText([g1, g2][k]));
    assert texts == [GroupText(g1), GroupText(g2)];
    JoinOfTwo(", ", GroupText(g1), GroupText(g2));
  }
}
