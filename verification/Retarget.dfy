/** `GetNextWorkRequired` on the main network: every 53rd block scales the target by how long the
    blocks before it took, within bounds. */
module Retarget {
  import opened Wrappers
  import opened BlockIndex
  import opened Compact

  const N_TARGET_TIMESPAN := 28800
  const N_TARGET_SPACING := 540
  /** The quotient of the two, rounded down: the only such number is 53. */
  type Interval = n: int | n == N_TARGET_TIMESPAN / N_TARGET_SPACING witness 53

  const N_INTERVAL: Interval := 53

  function Clamped(span: int): int {
    if span < N_TARGET_TIMESPAN / 4 then N_TARGET_TIMESPAN / 4
      else if span > N_TARGET_TIMESPAN * 4 then N_TARGET_TIMESPAN * 4 else span
  }

  /** A block whose target is one that `CheckProofOfWork` lets through. */
  ghost predicate TargetOk(b: CBlockIndex, limit: nat) { 0 <= TargetOf(b.nBits) <= limit }

  /** The block from which the time of an interval is counted: the first interval has no block before
      it and so is one block shorter. */
  ghost function IntervalStart(last: CBlockIndex): CBlockIndex
    requires last.Linked() && (last.nHeight + 1) % N_INTERVAL == 0
  {
    Anc(last, last.nHeight - if last.nHeight + 1 == N_INTERVAL then N_INTERVAL - 1 else N_INTERVAL)
  }

  /** The new target before it is rounded to its compact form. */
  ghost function NewTarget(last: CBlockIndex, limit: nat): (t: int)
    requires last.Linked() && (last.nHeight + 1) % N_INTERVAL == 0
    ensures t <= limit && (TargetOf(last.nBits) >= 0 ==> t >= 0)
  {
    ScaledSign(TargetOf(last.nBits), Clamped(last.nTime - IntervalStart(last).nTime));
    var scaled := Scaled(TargetOf(last.nBits) * Clamped(last.nTime - IntervalStart(last).nTime));
    if scaled > limit then limit else scaled
  }

  lemma ScaledSign(t: int, span: nat)
    ensures t >= 0 ==> t * span >= 0
  {
  }

  /** A product of timespan and target, scaled back: division of big numbers drops the remainder,
      whatever the sign. */
  function Scaled(n: int): (q: int)
    ensures n >= 0 ==> q >= 0
  {
    if n < 0 then -(-n / N_TARGET_TIMESPAN) else n / N_TARGET_TIMESPAN
  }

  /** The target can at most quadruple and at most quarter, and never passes the limit. */
  lemma NewTargetBounds(last: CBlockIndex, limit: nat)
    requires last.Linked() && (last.nHeight + 1) % N_INTERVAL == 0 && TargetOk(last, limit)
    ensures var was, next := TargetOf(last.nBits), NewTarget(last, limit);
            0 <= was / 4 <= next <= 4 * was && next <= limit
  {
    hide TargetOf;
    ScaleBounds(TargetOf(last.nBits), Clamped(last.nTime - IntervalStart(last).nTime));
  }

  lemma ScaleBounds(t: nat, span: int)
    requires N_TARGET_TIMESPAN / 4 <= span <= N_TARGET_TIMESPAN * 4
    ensures t / 4 <= t * span / N_TARGET_TIMESPAN <= 4 * t
  {
  }

  /** The time that the blocks before a retarget took: from the block 53 below the last one, or from
      genesis for the first retarget. */
  ghost function Span(last: CBlockIndex): int
    requires last.Linked() && (last.nHeight + 1) % 53 == 0
  {
    last.nTime - Anc(last, if last.nHeight == 52 then 0 else last.nHeight - 53).nTime
  }

  /** The new target by that time: blocks four times too fast, or faster, quarter it, blocks four times
      too slow, or slower, make it four times as large, and in between it follows the time, always
      capped at the limit.  Blocks on schedule leave it as it is. */
  lemma NewTargetBySpan(last: CBlockIndex, limit: nat)
    requires last.Linked() && (last.nHeight + 1) % 53 == 0 && 0 <= TargetOf(last.nBits) <= limit
    ensures var was, span, next := TargetOf(last.nBits), Span(last), NewTarget(last, limit);
            && (span <= 7200 ==> next == was / 4)
            && (span >= 115200 ==> next == Min(4 * was, limit))
            && (7200 <= span <= 115200 ==> next == Min(was * span / 28800, limit))
            && (span == 28800 ==> next == was)
  {
    hide TargetOf, Anc;
    var was, span := TargetOf(last.nBits), Span(last);
    assert N_INTERVAL == 53 && N_TARGET_TIMESPAN == 28800;
    assert IntervalStart(last).nTime == last.nTime - span;
    ScaledTarget(was, span);
  }

  lemma ScaledTarget(t: nat, span: int)
    ensures span <= 7200 ==> Scaled(t * Clamped(span)) == t / 4
    ensures span >= 115200 ==> Scaled(t * Clamped(span)) == 4 * t
    ensures 7200 <= span <= 115200 ==> Clamped(span) == span && Scaled(t * span) == t * span / 28800
    ensures span == 28800 ==> t * span / 28800 == t
  {
    if span <= 7200 {
      assert Clamped(span) == 7200 && t * 7200 / 28800 == t / 4;
    } else if span >= 115200 {
      assert Clamped(span) == 115200 && t * 115200 / 28800 == 4 * t;
    } else {
      ScaledSign(t, span);
    }
  }

  /** Taking longer never makes the next target smaller. */
  lemma SlowerNeverHarder(a: CBlockIndex, b: CBlockIndex, limit: nat)
    requires a.Linked() && (a.nHeight + 1) % 53 == 0 && b.Linked() && (b.nHeight + 1) % 53 == 0
    requires 0 <= TargetOf(a.nBits) == TargetOf(b.nBits) <= limit && Span(a) <= Span(b)
    ensures NewTarget(a, limit) <= NewTarget(b, limit)
  {
    hide TargetOf, Span, NewTarget;
    NewTargetBySpan(a, limit);
    NewTargetBySpan(b, limit);
    var t := TargetOf(a.nBits);
    SpanMonotone(t, if Span(a) < 7200 then 7200 else Span(a), if Span(b) > 115200 then 115200 else Span(b));
  }

  lemma SpanMonotone(t: nat, r: int, s: int)
    ensures 7200 <= r <= s ==> t / 4 <= t * r / 28800 <= t * s / 28800
    ensures r <= s <= 115200 ==> t * s / 28800 <= 4 * t
    ensures t / 4 <= 4 * t && t * 7200 / 28800 == t / 4 && t * 115200 / 28800 == 4 * t
  {
    if 7200 <= r <= s {
      assert t * 7200 <= t * r <= t * s;
      DivideMonotone(t * 7200, t * r);
      DivideMonotone(t * r, t * s);
    }
    if r <= s <= 115200 {
      assert t * s <= t * 115200;
      DivideMonotone(t * s, t * 115200);
    }
  }

  lemma DivideMonotone(a: int, b: int)
    requires a <= b
    ensures a / 28800 <= b / 28800
  {
  }

  /** `GetNextWorkRequired`.  Between retargets the bits stay; at a retarget they encode the new target,
      so the walk back must not fall off the chain. */
  method GetNextWorkRequired(pindexLast: CBlockIndex?, limit: nat) returns (nBits: uint32)
    requires Compactable(limit) && (pindexLast != null ==> pindexLast.Linked())
    ensures pindexLast == null ==> nBits == CompactOf(limit)
    ensures pindexLast != null && (pindexLast.nHeight + 1) % N_INTERVAL != 0 ==> nBits == pindexLast.nBits
    ensures pindexLast != null && (pindexLast.nHeight + 1) % N_INTERVAL == 0 ==>
              nBits == Encoded(NewTarget(pindexLast, limit))
    ensures pindexLast == null || TargetOk(pindexLast, limit) ==> 0 <= TargetOf(nBits) <= limit
  {
    hide TargetOf, CompactOf, Lost, Encoded;
    TargetOfCompact(limit);
    RoundedBounds(limit);
    EncodedCompactable(limit);
    var nProofOfWorkLimit := GetCompact(limit);
    if pindexLast == null { return nProofOfWorkLimit; }
    if (pindexLast.nHeight + 1) % N_INTERVAL != 0 { return pindexLast.nBits; }

    var blockstogoback := N_INTERVAL - 1;
    if pindexLast.nHeight + 1 != N_INTERVAL {
      blockstogoback := N_INTERVAL;
    }
    var pindexFirst: CBlockIndex? := pindexLast;
    var i := 0;
    while pindexFirst != null && i < blockstogoback
      invariant 0 <= i <= blockstogoback <= pindexLast.nHeight
      invariant pindexFirst != null && pindexFirst == Anc(pindexLast, pindexLast.nHeight - i)
      decreases blockstogoback - i
    {
      AncPrev(pindexLast, pindexLast.nHeight - i);
      pindexFirst := pindexFirst.pprev;
      i := i + 1;
    }
    assert pindexFirst != null && pindexFirst == IntervalStart(pindexLast);

    var nActualTimespan := pindexLast.nTime - pindexFirst.nTime;
    if nActualTimespan < N_TARGET_TIMESPAN / 4 {
      nActualTimespan := N_TARGET_TIMESPAN / 4;
    }
    if nActualTimespan > N_TARGET_TIMESPAN * 4 {
      nActualTimespan := N_TARGET_TIMESPAN * 4;
    }
    var bnNew := SetCompact(pindexLast.nBits);
    bnNew := bnNew * nActualTimespan;
    bnNew := Scaled(bnNew);
    if bnNew > limit {
      bnNew := limit;
    }
    assert bnNew == NewTarget(pindexLast, limit);
    if TargetOk(pindexLast, limit) { NextTargetOk(pindexLast, limit); }
    nBits := GetCompact(bnNew);
  }

  lemma NextTargetOk(last: CBlockIndex, limit: nat)
    requires last.Linked() && (last.nHeight + 1) % N_INTERVAL == 0 && TargetOk(last, limit) && Compactable(limit)
    ensures NewTarget(last, limit) >= 0 && Encoded(NewTarget(last, limit)) == CompactOf(NewTarget(last, limit))
    ensures 0 <= CompactOf(NewTarget(last, limit)) < 0x1_0000_0000 &&
            0 <= TargetOf(CompactOf(NewTarget(last, limit))) <= limit
  {
    hide TargetOf, CompactOf, Lost, NewTarget, Encoded;
    NewTargetBounds(last, limit);
    var next := NewTarget(last, limit);
    StillCompactable(next, limit);
    EncodedCompactable(next);
    TargetOfCompact(next);
    RoundedBounds(next);
  }

  lemma StillCompactable(n: nat, limit: nat)
    requires n <= limit && Compactable(limit)
    ensures Compactable(n)
  {
    LostMonotone(n, limit);
  }

  /** What a retarget does to the target as the next block will read it: at most the limit, at most four
      times the old one, and at least a quarter of it but for what the compact form loses. */
  lemma RetargetBounds(last: CBlockIndex, limit: nat)
    requires last.Linked() && (last.nHeight + 1) % N_INTERVAL == 0 && TargetOk(last, limit) && Compactable(limit)
    ensures var was, c := TargetOf(last.nBits), CompactOf(NewTarget(last, limit));
      && 0 <= c < 0x1_0000_0000
      && var t := TargetOf(c); 0 <= t <= limit && t <= 4 * was && t * 0x8000 >= was / 4 * 0x7FFF
  {
    hide TargetOf, CompactOf, Lost, NewTarget;
    NewTargetBounds(last, limit);
    var next := NewTarget(last, limit);
    StillCompactable(next, limit);
    TargetOfCompact(next);
    RoundedBounds(next);
  }

  /** A chain whose blocks all have the required bits. */
  ghost predicate BitsRequired(b: CBlockIndex, limit: nat)
    requires b.Linked() && Compactable(limit)
    decreases b.nHeight
  {
    && TargetOk(b, limit)
    && (b.pprev != null ==> BitsRequired(b.pprev, limit))
    && (b.pprev != null && b.nHeight % N_INTERVAL != 0 ==> b.nBits == b.pprev.nBits)
    && (b.pprev != null && b.nHeight % N_INTERVAL == 0 ==> b.nBits == Encoded(NewTarget(b.pprev, limit)))
  }

  lemma Intervals(b: nat, h: nat)
    requires h < b
    ensures b % N_INTERVAL == 0 && b - h <= N_INTERVAL ==>
              (b - 1) / N_INTERVAL == h / N_INTERVAL && b / N_INTERVAL != h / N_INTERVAL
    ensures b / N_INTERVAL == h / N_INTERVAL ==> (b - 1) / N_INTERVAL == h / N_INTERVAL && b % N_INTERVAL != 0
  {
  }

  lemma Parent(b: CBlockIndex, limit: nat)
    requires b.Linked() && Compactable(limit) && BitsRequired(b, limit)
    ensures 0 <= TargetOf(b.nBits)
    ensures b.pprev != null ==> TargetOk(b.pprev, limit) && BitsRequired(b.pprev, limit)
    ensures b.pprev != null && b.nHeight % N_INTERVAL != 0 ==> b.nBits == b.pprev.nBits
    ensures b.pprev != null && b.nHeight % N_INTERVAL == 0 ==> TargetOf(b.nBits) <= 4 * TargetOf(b.pprev.nBits)
  {
    hide TargetOf, CompactOf, Compactable, NewTarget;
    if b.pprev != null && b.nHeight % N_INTERVAL == 0 { RetargetBounds(b.pprev, limit); }
  }

  /** Within an interval there is at most one retarget, so over up to 53 blocks the target grows at
      most four times, and over any stretch without a retarget height it does not move. */
  lemma {:induction false} TargetsMoveSlowly(b: CBlockIndex, h: nat, limit: nat)
    requires b.Linked() && Compactable(limit) && BitsRequired(b, limit)
    requires h <= b.nHeight && b.nHeight - h <= N_INTERVAL
    ensures TargetOf(b.nBits) <= 4 * TargetOf(Anc(b, h).nBits)
    ensures b.nHeight / N_INTERVAL == h / N_INTERVAL ==> b.nBits == Anc(b, h).nBits
    decreases b.nHeight
  {
    hide TargetOf, CompactOf, Compactable, NewTarget, BitsRequired, TargetOk;
    Parent(b, limit);
    if h < b.nHeight {
      Intervals(b.nHeight, h);
      TargetsMoveSlowly(b.pprev, h, limit);
    }
  }
}
