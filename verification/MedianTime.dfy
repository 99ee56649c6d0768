/** `GetMedianTimePast`: the median of the last eleven block times, fewer near the genesis block, and
    the rule that a block must be later than the median before it. */
module MedianTime {
  import opened Wrappers
  import opened BlockIndex

  const N_MEDIAN_TIME_SPAN := 11

  /** The times of a block and up to `n - 1` blocks before it, oldest first. */
  ghost function Window(b: CBlockIndex?, n: nat): (w: seq<int>)
    requires b != null ==> b.Linked()
    ensures |w| == if b == null then 0 else if b.nHeight + 1 < n then b.nHeight + 1 else n
    decreases n
  {
    if b == null || n == 0 then [] else Window(b.pprev, n - 1) + [b.nTime]
  }

  ghost predicate Ascending(s: seq<int>) { forall i, j | 0 <= i < j < |s| :: s[i] <= s[j] }

  /** How many of the numbers are smaller than `m`. */
  function Below(s: seq<int>, m: int): (n: nat)
    ensures n <= |s|
  {
    if s == [] then 0 else (if s[0] < m then 1 else 0) + Below(s[1..], m)
  }

  function Insert(x: int, s: seq<int>): seq<int> {
    if s == [] || x <= s[0] then [x] + s else [s[0]] + Insert(x, s[1..])
  }

  /** `std::sort` */
  function Sort(s: seq<int>): seq<int> { if s == [] then [] else Insert(s[0], Sort(s[1..])) }

  lemma {:induction false} InsertBag(x: int, s: seq<int>)
    ensures multiset(Insert(x, s)) == multiset(s) + multiset{x} && |Insert(x, s)| == |s| + 1
  {
    if s != [] && x > s[0] {
      InsertBag(x, s[1..]);
      assert s == [s[0]] + s[1..];
    }
  }

  lemma {:induction false} InsertAscends(x: int, s: seq<int>)
    requires Ascending(s)
    ensures Ascending(Insert(x, s)) &&
            forall i | 0 <= i < |Insert(x, s)| :: Insert(x, s)[i] >= if s != [] && s[0] < x then s[0] else x
  {
    if s != [] && x > s[0] {
      InsertAscends(x, s[1..]);
    }
  }

  lemma {:induction false} InsertBelow(x: int, s: seq<int>, m: int)
    ensures Below(Insert(x, s), m) == Below(s, m) + if x < m then 1 else 0
  {
    if s != [] && x > s[0] {
      InsertBelow(x, s[1..], m);
      assert Insert(x, s)[1..] == Insert(x, s[1..]);
    } else {
      assert ([x] + s)[1..] == s;
    }
  }

  lemma {:induction false} SortSorts(s: seq<int>)
    ensures Ascending(Sort(s)) && multiset(Sort(s)) == multiset(s) && |Sort(s)| == |s|
    ensures forall m :: Below(Sort(s), m) == Below(s, m)
  {
    if s != [] {
      SortSorts(s[1..]);
      InsertBag(s[0], Sort(s[1..]));
      InsertAscends(s[0], Sort(s[1..]));
      forall m { InsertBelow(s[0], Sort(s[1..]), m); }
      assert s == [s[0]] + s[1..];
    }
  }

  /** In an ascending list, the element at `k` is at least `m` when at most `k` elements are below. */
  lemma {:induction false} RankOf(s: seq<int>, k: nat, m: int)
    requires Ascending(s) && k < |s|
    ensures s[k] >= m <==> Below(s, m) <= k
  {
    if k > 0 {
      RankOf(s[1..], k - 1, m);
    } else if s[0] >= m {
      NoneBelow(s, m);
    }
  }

  lemma {:induction false} NoneBelow(s: seq<int>, m: int)
    requires forall i | 0 <= i < |s| :: s[i] >= m
    ensures Below(s, m) == 0
  {
    if s != [] { NoneBelow(s[1..], m); }
  }

  function Median(s: seq<int>): int
    requires s != []
  {
    SortSorts(s);
    Sort(s)[|s| / 2]
  }

  /** The median is at least `m` exactly when at most half of the numbers, rounded down, are below. */
  lemma MedianRank(s: seq<int>, m: int)
    requires s != []
    ensures Median(s) >= m <==> Below(s, m) <= |s| / 2
  {
    SortSorts(s);
    RankOf(Sort(s), |s| / 2, m);
  }

  ghost function MedianTimePast(b: CBlockIndex): int
    requires b.Linked()
  {
    Median(Window(b, N_MEDIAN_TIME_SPAN))
  }

  lemma {:induction false} BelowAppend(s: seq<int>, x: int, m: int)
    ensures Below(s + [x], m) == Below(s, m) + if x < m then 1 else 0
  {
    if s != [] {
      BelowAppend(s[1..], x, m);
      assert (s + [x])[1..] == s[1..] + [x];
    }
  }

  /** A wider window has more numbers below any bound. */
  lemma {:induction false} BelowGrows(b: CBlockIndex?, n: nat, m: int)
    requires b != null ==> b.Linked()
    ensures Below(Window(b, n), m) <= Below(Window(b, n + 1), m)
    decreases n
  {
    if b != null && n > 0 {
      BelowGrows(b.pprev, n - 1, m);
      BelowAppend(Window(b.pprev, n - 1), b.nTime, m);
      BelowAppend(Window(b.pprev, n), b.nTime, m);
    }
  }

  /** A block that is later than the median before it does not lower the median, whether the window
      slides or still grows. */
  lemma MedianStep(b: CBlockIndex)
    requires b.Linked() && b.pprev != null && b.nTime > MedianTimePast(b.pprev)
    ensures MedianTimePast(b) >= MedianTimePast(b.pprev)
  {
    hide Median;
    var m := MedianTimePast(b.pprev);
    var before, after := Window(b.pprev, N_MEDIAN_TIME_SPAN), Window(b, N_MEDIAN_TIME_SPAN);
    MedianRank(before, m);
    BelowGrows(b.pprev, N_MEDIAN_TIME_SPAN - 1, m);
    BelowAppend(Window(b.pprev, N_MEDIAN_TIME_SPAN - 1), b.nTime, m);
    assert |before| <= |after|;
    MedianRank(after, m);
  }

  /** A chain on which every block has passed the time test of `AcceptBlock`. */
  ghost predicate TimesAccepted(b: CBlockIndex)
    requires b.Linked()
    decreases b.nHeight
  {
    b.pprev != null ==> b.nTime > MedianTimePast(b.pprev) && TimesAccepted(b.pprev)
  }

  /** Along a chain of accepted blocks the median time never decreases. */
  lemma {:induction false} MedianNeverDecreases(b: CBlockIndex, h: nat)
    requires b.Linked() && TimesAccepted(b) && h <= b.nHeight
    ensures MedianTimePast(Anc(b, h)) <= MedianTimePast(b)
    decreases b.nHeight
  {
    hide MedianTimePast;
    if h < b.nHeight {
      MedianNeverDecreases(b.pprev, h);
      MedianStep(b);
    }
  }

  /** So every block is later than the median time of each of its ancestors. */
  lemma LaterThanAllMedians(b: CBlockIndex, h: nat)
    requires b.Linked() && TimesAccepted(b) && h < b.nHeight
    ensures b.nTime > MedianTimePast(Anc(b, h))
  {
    MedianNeverDecreases(b.pprev, h);
  }

  /** `GetMedianTimePast`: the buffer is filled from its end while walking back. */
  method GetMedianTimePast(b: CBlockIndex) returns (r: int)
    requires b.Linked()
    ensures r == MedianTimePast(b) == Median(Window(b, 11))
  {
    hide Window, Sort;
    var pmedian := new int[N_MEDIAN_TIME_SPAN](_ => 0);
    var pend := N_MEDIAN_TIME_SPAN;
    var pbegin := FillWindow(b, pmedian);
    SortSorts(pmedian[pbegin..]);
    var sorted := Sort(pmedian[pbegin..]);
    r := sorted[(pend - pbegin) / 2];
  }

  /** The walk back, which writes the times from the end of the buffer. */
  method FillWindow(b: CBlockIndex, pmedian: array<int>) returns (pbegin: nat)
    requires b.Linked() && pmedian.Length == N_MEDIAN_TIME_SPAN
    modifies pmedian
    ensures pbegin < N_MEDIAN_TIME_SPAN && pmedian[pbegin..] == Window(b, N_MEDIAN_TIME_SPAN)
  {
    hide Window;
    pbegin := N_MEDIAN_TIME_SPAN;
    var pindex: CBlockIndex? := b;
    var i := 0;
    while i < N_MEDIAN_TIME_SPAN && pindex != null
      invariant 0 <= i <= N_MEDIAN_TIME_SPAN && pbegin == N_MEDIAN_TIME_SPAN - i
      invariant pindex != null ==> pindex.Linked()
      invariant Window(b, N_MEDIAN_TIME_SPAN) == Window(pindex, N_MEDIAN_TIME_SPAN - i) + pmedian[pbegin..]
      decreases N_MEDIAN_TIME_SPAN - i
    {
      ghost var rest := pmedian[pbegin..];
      WindowStep(pindex, N_MEDIAN_TIME_SPAN - i, rest);
      pbegin := pbegin - 1;
      pmedian[pbegin] := pindex.nTime;
      assert pmedian[pbegin..] == [pindex.nTime] + rest;
      pindex := pindex.pprev;
      i := i + 1;
    }
    WindowEnd(pindex, N_MEDIAN_TIME_SPAN - i);
  }

  lemma WindowStep(b: CBlockIndex, n: nat, rest: seq<int>)
    requires b.Linked() && n > 0
    ensures Window(b, n) + rest == Window(b.pprev, n - 1) + ([b.nTime] + rest)
  {
  }

  lemma WindowEnd(b: CBlockIndex?, n: nat)
    requires (b != null ==> b.Linked()) && (b == null || n == 0)
    ensures Window(b, n) == []
  {
  }

  /** The time test of `AcceptBlock`. */
  method AcceptTime(nTime: uint32, pindexPrev: CBlockIndex) returns (ok: bool)
    requires pindexPrev.Linked()
    ensures ok <==> nTime > MedianTimePast(pindexPrev)
    ensures ok && TimesAccepted(pindexPrev) ==> forall h: nat | h <= pindexPrev.nHeight ::
              nTime > MedianTimePast(Anc(pindexPrev, h))
  {
    var median := GetMedianTimePast(pindexPrev);
    if nTime <= median { return false; }
    forall h: nat | TimesAccepted(pindexPrev) && h <= pindexPrev.nHeight
      ensures nTime > MedianTimePast(Anc(pindexPrev, h))
    {
      MedianNeverDecreases(pindexPrev, h);
    }
    return true;
  }

  /** The window: the times of the last eleven blocks, or of all blocks while there are fewer. */
  lemma {:induction false} WindowMeans(b: CBlockIndex, n: nat)
    requires b.Linked() && n > 0
    ensures var w := Window(b, n);
            && |w| == (if b.nHeight + 1 < n then b.nHeight + 1 else n)
            && forall i | 0 <= i < |w| :: w[i] == Anc(b, b.nHeight + 1 - |w| + i).nTime
    decreases n
  {
    if b.pprev != null && n > 1 { WindowMeans(b.pprev, n - 1); }
  }
}
