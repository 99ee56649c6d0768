/** Walking the block tree: the fork search of `SetBestChain` and the lists of blocks it
    leaves and joins. */
module ForkSearch {
  import opened Wrappers
  import opened Coins
  import opened Blocks
  import opened BlockIndex

  /** The block index: closed under parents, with one genesis block. */
  ghost predicate TreeOk(index: set<CBlockIndex>) {
    && (forall b | b in index :: b.Linked() && b.nHeight / 100_000 < 64 && (b.pprev != null ==> b.pprev in index))
    && (forall a, b | a in index && b in index && a.pprev == null && b.pprev == null :: a == b)
  }

  lemma InTree(index: set<CBlockIndex>, b: CBlockIndex)
    requires TreeOk(index) && b in index
    ensures b.Linked() && OnChain(b, b)
  {
  }

  lemma {:induction false} AncInTree(index: set<CBlockIndex>, b: CBlockIndex, h: nat)
    requires TreeOk(index) && b in index && h <= b.nHeight
    ensures Anc(b, h) in index
    decreases b.nHeight
  {
    if h < b.nHeight { AncInTree(index, b.pprev, h); }
  }

  lemma OneGenesis(index: set<CBlockIndex>, a: CBlockIndex, b: CBlockIndex)
    requires TreeOk(index) && a in index && b in index
    ensures Anc(a, 0) == Anc(b, 0)
  {
    AncInTree(index, a, 0);
    AncInTree(index, b, 0);
  }

  ghost predicate DifferAbove(a: CBlockIndex, b: CBlockIndex, nHeight: nat)
    requires a.Linked() && b.Linked()
  {
    forall h: nat | nHeight < h <= a.nHeight && h <= b.nHeight :: Anc(a, h) != Anc(b, h)
  }

  /** The highest block on both chains. */
  ghost predicate HighestCommon(fork: CBlockIndex, a: CBlockIndex, b: CBlockIndex)
    requires a.Linked() && b.Linked()
  {
    OnChain(fork, a) && OnChain(fork, b) && DifferAbove(a, b, fork.nHeight)
  }

  /** The inner loop of the fork search. */
  method WalkDown(top: CBlockIndex, start: CBlockIndex, nHeight: nat) returns (b: CBlockIndex)
    requires top.Linked() && OnChain(start, top)
    ensures b.Linked() && OnChain(b, top)
    ensures b.nHeight == if start.nHeight <= nHeight then start.nHeight else nHeight
  {
    b := start;
    while b.nHeight > nHeight
      invariant b.Linked() && OnChain(b, top)
      invariant b.nHeight == start.nHeight || b.nHeight >= nHeight
      invariant b.nHeight <= start.nHeight
      decreases b.nHeight
    {
      AncPrev(top, b.nHeight);
      b := b.pprev;
    }
  }

  /** Why the fork search may step down: the two chains differ at this height too, so it
      is not the height of the genesis block. */
  lemma ForkStep(best: CBlockIndex, pindexNew: CBlockIndex, fork: CBlockIndex, plonger: CBlockIndex)
    requires best.Linked() && pindexNew.Linked() && Anc(best, 0) == Anc(pindexNew, 0)
    requires OnChain(fork, best) && OnChain(plonger, pindexNew) && fork != plonger
    requires plonger.nHeight == fork.nHeight || (plonger == pindexNew && plonger.nHeight < fork.nHeight)
    requires DifferAbove(best, pindexNew, fork.nHeight)
    ensures fork.pprev != null && OnChain(fork.pprev, best) && fork.pprev.nHeight + 1 == fork.nHeight
    ensures DifferAbove(best, pindexNew, fork.nHeight - 1)
  {
    AncPrev(best, fork.nHeight);
  }

  /** The fork search.  Its two assertions hold because both chains start at genesis. */
  method FindFork(ghost index: set<CBlockIndex>, best: CBlockIndex?, pindexNew: CBlockIndex)
    returns (pfork: CBlockIndex?)
    requires TreeOk(index) && pindexNew in index && (best != null ==> best in index)
    ensures best == null ==> pfork == null
    ensures best != null ==> pfork != null && HighestCommon(pfork, best, pindexNew)
  {
    if best == null { return null; }
    OneGenesis(index, best, pindexNew);
    hide TreeOk, DifferAbove;
    var fork: CBlockIndex, plonger: CBlockIndex := best, pindexNew;
    while fork != plonger
      invariant OnChain(plonger, pindexNew)
      invariant fork.Linked() && OnChain(fork, best)
      invariant plonger.nHeight >= fork.nHeight || plonger == pindexNew
      invariant DifferAbove(best, pindexNew, fork.nHeight)
      decreases fork.nHeight
    {
      plonger := WalkDown(pindexNew, plonger, fork.nHeight);
      if fork == plonger { break; }
      ForkStep(best, pindexNew, fork, plonger);
      fork := fork.pprev;
    }
    pfork := fork;
  }

  function HeightOf(b: CBlockIndex?): int { if b == null then -1 else b.nHeight }

  ghost predicate ForkOf(pfork: CBlockIndex?, tip: CBlockIndex?) {
    && (pfork != null ==> tip != null)
    && (tip != null ==> tip.Linked() && (pfork != null ==> OnChain(pfork, tip)))
  }

  /** The blocks from `tip` down to just above the fork, in that order. */
  method BlocksAbove(tip: CBlockIndex?, pfork: CBlockIndex?) returns (v: seq<CBlockIndex>)
    requires ForkOf(pfork, tip)
    ensures |v| == HeightOf(tip) - HeightOf(pfork)
    ensures forall i | 0 <= i < |v| :: v[i] == Anc(tip, tip.nHeight - i)
  {
    v := [];
    var pindex := tip;
    while pindex != pfork
      invariant |v| == HeightOf(tip) - HeightOf(pindex) && HeightOf(pindex) >= HeightOf(pfork)
      invariant pindex != null ==> tip != null && pindex.Linked() && OnChain(pindex, tip)
      invariant forall i | 0 <= i < |v| :: v[i] == Anc(tip, tip.nHeight - i)
      invariant pindex == null ==> pfork == null
      decreases HeightOf(pindex) + 1
    {
      assert pfork != null ==> pindex.nHeight > pfork.nHeight;
      v := v + [pindex];
      if pindex.nHeight > 0 { AncPrev(tip, pindex.nHeight); }
      pindex := pindex.pprev;
    }
  }

  method Reversed(v: seq<CBlockIndex>) returns (r: seq<CBlockIndex>)
    ensures |r| == |v| && forall i | 0 <= i < |v| :: r[i] == v[|v| - 1 - i]
  {
    r := [];
    for i := 0 to |v|
      invariant |r| == i && forall k | 0 <= k < i :: r[k] == v[|v| - 1 - k]
    {
      r := r + [v[|v| - 1 - i]];
    }
  }

  /** Down from `best` to the highest common ancestor, then up to `pindexNew`; all the way
      from genesis when there is no best block yet. */
  ghost predicate IsRoute(best: CBlockIndex?, pfork: CBlockIndex?, pindexNew: CBlockIndex,
                          vDisconnect: seq<CBlockIndex>, vConnect: seq<CBlockIndex>)
  {
    && ForkOf(pfork, best) && ForkOf(pfork, pindexNew) && (best == null <==> pfork == null)
    && (best != null ==> HighestCommon(pfork, best, pindexNew))
    && |vDisconnect| == HeightOf(best) - HeightOf(pfork) && |vConnect| == HeightOf(pindexNew) - HeightOf(pfork)
    && (forall i | 0 <= i < |vDisconnect| :: vDisconnect[i] == Anc(best, best.nHeight - i))
    && (forall i | 0 <= i < |vConnect| :: vConnect[i] == Anc(pindexNew, HeightOf(pfork) + 1 + i))
  }

  /** The first part of `SetBestChain`: where the two chains part, which blocks to leave and
      which to join. */
  method FindRoute(ghost index: set<CBlockIndex>, best: CBlockIndex?, pindexNew: CBlockIndex)
    returns (pfork: CBlockIndex?, vDisconnect: seq<CBlockIndex>, vConnect: seq<CBlockIndex>)
    requires TreeOk(index) && pindexNew in index && (best != null ==> best in index)
    ensures IsRoute(best, pfork, pindexNew, vDisconnect, vConnect)
  {
    pfork := FindFork(index, best, pindexNew);
    vDisconnect := BlocksAbove(best, pfork);
    var up := BlocksAbove(pindexNew, pfork);
    vConnect := Reversed(up);
  }

  /** What `pnext` should be: the next block towards `best` for every proper ancestor of
      `best`, and null for every other block. */
  ghost function NextOf(b: CBlockIndex, best: CBlockIndex?): CBlockIndex?
    requires best != null ==> best.Linked()
  {
    if best != null && b.nHeight < best.nHeight && OnChain(b, best) then Anc(best, b.nHeight + 1) else null
  }

  lemma RouteFork(best: CBlockIndex?, pfork: CBlockIndex?, pindexNew: CBlockIndex, vDisconnect: seq<CBlockIndex>,
                  vConnect: seq<CBlockIndex>)
    requires IsRoute(best, pfork, pindexNew, vDisconnect, vConnect)
    ensures ForkOf(pfork, best) && pindexNew.Linked() && (best == null <==> pfork == null)
  {
  }
}
