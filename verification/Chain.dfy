/** The chain state: the block index, the candidate set, the best block and the coin view
    that follows it.  `SetBestChain` moves all of them from one branch to another. */
module Chain {
  import opened Wrappers
  import opened Coins
  import opened Ledger
  import opened BlockIndex
  import opened CoinsView
  import opened ChainReplay
  import opened ForkSearch
  import BC = BlockConnect

  /** How a switch ends.  `Rejected` blames a block; `Failed` is any other failure before
      the new view is flushed; `AbortedAfterFlush` leaves the coin view ahead of `pindexBest`. */
  datatype Switch = Switched | Rejected | Failed | AbortedAfterFlush

  ghost predicate UndosOk(index: set<CBlockIndex>)
    requires TreeOk(index)
    reads index`undo
  {
    forall b | b in index :: UndoOk(b)
  }

  /** Every block that a view may have to disconnect has its undo data. */
  ghost predicate ChainHasUndo(index: set<CBlockIndex>, tip: CBlockIndex?)
    requires TreeOk(index) && (tip != null ==> tip in index)
    reads index`undo
  {
    NeedsUndo(index, tip) <= WithUndo(index)
  }

  ghost function NeedsUndo(index: set<CBlockIndex>, tip: CBlockIndex?): set<CBlockIndex>
    requires tip != null ==> tip.Linked()
  {
    set b | b in index && tip != null && OnChain(b, tip) && b.pprev != null
  }

  ghost function WithUndo(index: set<CBlockIndex>): set<CBlockIndex>
    reads index`undo
  {
    set b | b in index && b.undo.Some?
  }

  ghost predicate NextOk(index: set<CBlockIndex>, best: CBlockIndex?)
    requires TreeOk(index) && (best != null ==> best in index)
    reads index`pnext
  {
    forall b | b in index :: b.pnext == NextOf(b, best)
  }

  /** A layer over the block index that shows the coins of its best block's chain,
      every block of which can be disconnected again. */
  ghost predicate GoodView(index: set<CBlockIndex>, view: Layer)
    requires TreeOk(index)
    reads index`undo
  {
    (view.best != null ==> view.best in index) && Replays(view) && UndosOk(index) && ChainHasUndo(index, view.best)
  }

  /** The same of several layers over one index. */
  ghost predicate GoodViews(index: set<CBlockIndex>, views: seq<Layer>)
    requires TreeOk(index)
    reads index`undo
  {
    forall i | 0 <= i < |views| :: GoodView(index, views[i])
  }

  /** Storing the records of a good view leaves a good one. */
  lemma StillGood(index: set<CBlockIndex>, before: Layer, after: Layer)
    requires TreeOk(index) && GoodView(index, before)
    requires after.best == before.best && Shows(after.coins, before.coins)
    ensures GoodView(index, after)
  {
    ShowsTransitive(after.coins, before.coins, Replay(before.best).value);
  }

  // ---------- disconnecting and connecting one block ----------

  /** What happens outside this model while one switch is made: what can be read, the verdicts on each
      block, and whether the coins are flushed to disk and the flush goes through. */
  datatype World = World(fBlockRead: CBlockIndex -> bool, fUndoRead: CBlockIndex -> bool, env: CBlockIndex -> BC.Env,
                         fFlush: bool, fDiskSpace: bool, fCoinsWritten: bool) {
    predicate ReadBack(b: CBlockIndex) { fBlockRead(b) && fUndoRead(b) }

    predicate FlushOk() { !fFlush || (fDiskSpace && fCoinsWritten) }
  }

  /** A block that a switch can connect on the chain of its parent: it is read, it passes, and what it
      has to write is written.  `had` are the blocks whose undo data was there before. */
  ghost predicate CanJoin(b: CBlockIndex, w: World, had: set<CBlockIndex>) {
    Bounded(b) && w.fBlockRead(b) && w.env(b).fLockLimit && Passes(b, w.env(b)) && BC.Writes(b, w.env(b), b in had)
  }

  /** A block that is read and found invalid itself. */
  ghost predicate FoundInvalid(b: CBlockIndex, w: World) {
    Bounded(b) && w.fBlockRead(b) && w.env(b).fLockLimit && !Passes(b, w.env(b))
  }

  /** One turn of the disconnecting loop: nothing but a failed read can stop it. */
  method DisconnectOne(index: set<CBlockIndex>, view: CoinsViewCache, pindex: CBlockIndex, w: World,
                       ghost others: seq<Layer>)
    returns (ok: bool)
    requires TreeOk(index) && view.Valid() && pindex in index && view.Top().best == pindex && pindex.pprev != null
    requires GoodView(index, view.Top()) && GoodViews(index, others)
    modifies view.Repr
    ensures view.Below() == old(view.Below()) && GoodViews(index, others)
    ensures ok <==> w.ReadBack(pindex)
    ensures ok ==> GoodView(index, view.Top()) && view.Top().best == view.pindexTip == pindex.pprev
  {
    hide CoinsViewCache.Top, CoinsViewCache.Below, CoinsViewCache.Under, Replays, BC.UndoFor, Ledger.DisconnectBlock;
    if !w.fBlockRead(pindex) { return false; }
    assert pindex in NeedsUndo(index, pindex);
    DisconnectReplays(view.Top(), pindex);
    ghost var before := view.Top();
    ok := BC.DisconnectBlock(view, pindex, w.fUndoRead(pindex));
    if ok { ChainHasUndoBelow(index, pindex); }
  }

  lemma ChainHasUndoBelow(index: set<CBlockIndex>, b: CBlockIndex)
    requires TreeOk(index) && b in index && b.pprev != null && ChainHasUndo(index, b)
    ensures ChainHasUndo(index, b.pprev)
  {
  }

  /** One turn of the connecting loop.  Whatever comes of it, undo data stays right, so any
      other views that are good stay good. */
  method ConnectOne(index: set<CBlockIndex>, view: CoinsViewCache, pindex: CBlockIndex, w: World,
                    ghost had: set<CBlockIndex>, ghost others: seq<Layer>)
    returns (r: BC.Outcome)
    requires TreeOk(index) && view.Valid() && pindex in index && view.Top().best == pindex.pprev
    requires GoodView(index, view.Top()) && GoodViews(index, others) && (pindex in had <==> pindex.undo.Some?)
    modifies view.Repr, pindex`undo
    ensures view.Below() == old(view.Below()) && GoodViews(index, others)
    ensures r == BC.Ok <==> CanJoin(pindex, w, had)
    ensures r == BC.Invalid <==> FoundInvalid(pindex, w)
    ensures r == BC.Ok ==> GoodView(index, view.Top()) && view.Top().best == view.pindexTip == pindex
  {
    hide CoinsViewCache.Top, CoinsViewCache.Below, CoinsViewCache.Under, Replays, BC.UndoFor, Ledger.ConnectBlock,
         BC.Connects, BC.Writes, WellFormed, NeedsUndo, Passes;
    UndoOkIn(index, pindex);
    var env := w.env(pindex);
    if !w.fBlockRead(pindex) { return BC.Abort; }
    ghost var before := view.Top();
    ghost var undone := WithUndo(index);
    ViewMoney(before);
    ConnectsIffPasses(before, pindex, env);
    r := BC.ConnectBlock(view, pindex, env);
    if BC.Connects(before.coins, pindex, env) { ConnectReplays(before, pindex, env); }
    forall x | x in index ensures UndoOk(x) {}
    assert undone <= WithUndo(index);
    if r == BC.Ok { ChainHasUndoAbove(index, pindex); }
  }

  lemma UndoOkIn(index: set<CBlockIndex>, b: CBlockIndex)
    requires TreeOk(index) && b in index && UndosOk(index)
    ensures Bounded(b) && UndoOk(b)
  {
  }

  lemma ViewMoney(view: Layer)
    requires Replays(view)
    ensures WellFormed(view.coins) && BC.MoneyBounded(view.coins) && Replay(view.best).Some?
  {
    SupplyBelowMaxMoney(view.best, view.coins);
  }

  lemma ChainHasUndoAbove(index: set<CBlockIndex>, b: CBlockIndex)
    requires TreeOk(index) && b in index && ChainHasUndo(index, b.pprev) && (b.pprev != null ==> b.undo.Some?)
    ensures ChainHasUndo(index, b)
  {
  }

  lemma BranchKnown(index: set<CBlockIndex>, pfork: CBlockIndex?, pindexNew: CBlockIndex, vConnect: seq<CBlockIndex>)
    requires TreeOk(index) && pindexNew in index && |vConnect| == HeightOf(pindexNew) - HeightOf(pfork)
    requires ForkOf(pfork, pindexNew) &&
             forall i | 0 <= i < |vConnect| :: vConnect[i] == Anc(pindexNew, HeightOf(pfork) + 1 + i)
    ensures forall b | b in vConnect :: b in index
    ensures pfork == null ==> |vConnect| > 0 && vConnect[0].pprev == null
  {
    hide TreeOk, Anc;
    forall i | 0 <= i < |vConnect| ensures vConnect[i] in index { StepUp(index, pindexNew, HeightOf(pfork) + 1 + i); }
    if pfork == null { StepUp(index, pindexNew, 0); }
  }

  /** The disconnecting loop, from the view's best block down to the fork. */
  method DisconnectAll(index: set<CBlockIndex>, view: CoinsViewCache, pfork: CBlockIndex?,
                       vDisconnect: seq<CBlockIndex>, w: World, ghost others: seq<Layer>)
    returns (ok: bool)
    requires TreeOk(index) && view.Valid() && GoodView(index, view.Top()) && view.Top().best == view.pindexTip
    requires GoodViews(index, others)
    requires ForkOf(pfork, view.pindexTip) && (pfork == null <==> view.pindexTip == null)
    requires view.pindexTip != null ==> view.pindexTip in index
    requires |vDisconnect| == HeightOf(view.pindexTip) - HeightOf(pfork)
    requires forall i | 0 <= i < |vDisconnect| :: vDisconnect[i] == Anc(view.pindexTip, view.pindexTip.nHeight - i)
    modifies view.Repr
    ensures view.Below() == old(view.Below()) && GoodViews(index, others)
    ensures ok <==> forall b | b in vDisconnect :: w.ReadBack(b)
    ensures ok ==> GoodView(index, view.Top()) && view.Top().best == view.pindexTip == pfork
  {
    hide CoinsViewCache.Top, CoinsViewCache.Below, CoinsViewCache.Under, GoodView, GoodViews, TreeOk, World.ReadBack,
         Anc, OnChain, ForkOf;
    ghost var tip := view.pindexTip;
    DownStart(pfork, tip, vDisconnect);
    for i := 0 to |vDisconnect|
      invariant forall k | 0 <= k < i :: w.ReadBack(vDisconnect[k])
      invariant view.Below() == old(view.Below()) && GoodView(index, view.Top()) && GoodViews(index, others)
      invariant view.Top().best == view.pindexTip == if i < |vDisconnect| then vDisconnect[i] else pfork
    {
      DownStep(index, pfork, tip, vDisconnect, i);
      ok := DisconnectOne(index, view, vDisconnect[i], w, others);
      if !ok { return; }
    }
    ok := true;
  }

  /** The blocks to leave: each is followed by its parent, down to the fork. */
  lemma DownStep(index: set<CBlockIndex>, pfork: CBlockIndex?, tip: CBlockIndex, v: seq<CBlockIndex>, i: nat)
    requires TreeOk(index) && tip in index && ForkOf(pfork, tip) && pfork != null
    requires |v| == tip.nHeight - HeightOf(pfork)
    requires i < |v| && forall k | 0 <= k < |v| :: v[k] == Anc(tip, tip.nHeight - k)
    ensures v[i] in index && v[i].pprev == if i + 1 < |v| then v[i + 1] else pfork
  {
    hide TreeOk, Anc;
    StepDown(index, tip, tip.nHeight - i);
  }

  lemma DownStart(pfork: CBlockIndex?, tip: CBlockIndex?, v: seq<CBlockIndex>)
    requires ForkOf(pfork, tip) && (pfork == null <==> tip == null) && |v| == HeightOf(tip) - HeightOf(pfork)
    requires forall k | 0 <= k < |v| :: v[k] == Anc(tip, tip.nHeight - k)
    ensures tip == if v == [] then pfork else v[0]
  {
  }

  lemma StepDown(index: set<CBlockIndex>, tip: CBlockIndex, h: nat)
    requires TreeOk(index) && tip in index && 0 < h <= tip.nHeight
    ensures Anc(tip, h) in index && Anc(tip, h).pprev == Anc(tip, h - 1)
  {
    AncPrev(tip, h);
    AncInTree(index, tip, h);
  }

  ghost predicate JoinAll(v: seq<CBlockIndex>, w: World, had: set<CBlockIndex>) {
    forall b | b in v :: CanJoin(b, w, had)
  }

  /** The first block of a list that cannot join. */
  ghost predicate FirstStop(v: seq<CBlockIndex>, w: World, had: set<CBlockIndex>, bad: CBlockIndex) {
    !CanJoin(bad, w, had) && exists i | 0 <= i < |v| :: v[i] == bad && forall k | 0 <= k < i :: CanJoin(v[k], w, had)
  }

  /** The blocks of a branch: each follows the one before, from the fork to the new tip. */
  lemma BranchStep(index: set<CBlockIndex>, pfork: CBlockIndex?, tip: CBlockIndex, v: seq<CBlockIndex>, i: nat)
    requires TreeOk(index) && tip in index && ForkOf(pfork, tip) && |v| == tip.nHeight - HeightOf(pfork)
    requires i < |v| && forall k | 0 <= k < |v| :: v[k] == Anc(tip, HeightOf(pfork) + 1 + k)
    ensures v[i] in index && v[i].pprev == if i == 0 then pfork else v[i - 1]
    ensures forall k | i < k < |v| :: v[k] != v[i]
  {
    hide TreeOk, Anc;
    InTree(index, tip);
    StepUp(index, tip, HeightOf(pfork) + 1 + i);
  }

  lemma BranchEnd(index: set<CBlockIndex>, pfork: CBlockIndex?, tip: CBlockIndex, v: seq<CBlockIndex>)
    requires TreeOk(index) && tip in index && ForkOf(pfork, tip) && |v| == tip.nHeight - HeightOf(pfork)
    requires forall k | 0 <= k < |v| :: v[k] == Anc(tip, HeightOf(pfork) + 1 + k)
    ensures tip == if v == [] then pfork else v[|v| - 1]
  {
  }

  lemma HadUndo(index: set<CBlockIndex>)
    ensures forall b | b in index :: b in WithUndo(index) <==> b.undo.Some?
  {
  }

  lemma Stopped(v: seq<CBlockIndex>, w: World, had: set<CBlockIndex>, i: nat)
    requires i < |v| && !CanJoin(v[i], w, had) && forall k | 0 <= k < i :: CanJoin(v[k], w, had)
    ensures FirstStop(v, w, had, v[i]) && !JoinAll(v, w, had)
  {
  }

  lemma NotStopped(v: seq<CBlockIndex>, w: World, had: set<CBlockIndex>)
    requires forall k | 0 <= k < |v| :: CanJoin(v[k], w, had)
    ensures JoinAll(v, w, had)
  {
  }

  lemma NoBlockOfView(view: CoinsViewCache, v: seq<CBlockIndex>)
    requires view.Valid()
    ensures forall k | 0 <= k < |v| :: v[k] !in view.Repr
  {
  }

  /** The connecting loop, from the fork up to the new best block. */
  method ConnectAll(index: set<CBlockIndex>, view: CoinsViewCache, pfork: CBlockIndex?, pindexNew: CBlockIndex,
                    vConnect: seq<CBlockIndex>, w: World, ghost had: set<CBlockIndex>, ghost others: seq<Layer>)
    returns (r: BC.Outcome, bad: CBlockIndex)
    requires TreeOk(index) && view.Valid() && GoodView(index, view.Top()) && view.Top().best == view.pindexTip == pfork
    requires GoodViews(index, others) && forall b | b in index :: b in had <==> b.undo.Some?
    requires pindexNew in index && ForkOf(pfork, pindexNew) && |vConnect| == HeightOf(pindexNew) - HeightOf(pfork)
    requires forall i | 0 <= i < |vConnect| :: vConnect[i] == Anc(pindexNew, HeightOf(pfork) + 1 + i)
    modifies view.Repr, vConnect`undo
    ensures view.Below() == old(view.Below()) && GoodViews(index, others) && bad in index
    ensures r == BC.Ok <==> JoinAll(vConnect, w, had)
    ensures r != BC.Ok ==>
              FirstStop(vConnect, w, had, bad) && (r == BC.Invalid <==> FoundInvalid(bad, w))
    ensures r == BC.Ok ==> GoodView(index, view.Top()) && view.Top().best == view.pindexTip == pindexNew
  {
    hide CoinsViewCache.Top, CoinsViewCache.Below, CoinsViewCache.Under, TreeOk, GoodView, GoodViews, CanJoin,
         FoundInvalid, FirstStop, JoinAll, ForkOf, Anc, OnChain, WithUndo, CoinsViewCache.Valid;
    BranchKnown(index, pfork, pindexNew, vConnect);
    NoBlockOfView(view, vConnect);
    BranchEnd(index, pfork, pindexNew, vConnect);
    bad := pindexNew;
    for i := 0 to |vConnect|
      invariant view.Below() == old(view.Below()) && GoodView(index, view.Top()) && GoodViews(index, others)
      invariant forall k | 0 <= k < i :: CanJoin(vConnect[k], w, had)
      invariant forall k | i <= k < |vConnect| :: vConnect[k] in had <==> vConnect[k].undo.Some?
      invariant view.Top().best == view.pindexTip == if i == 0 then pfork else vConnect[i - 1]
    {
      BranchStep(index, pfork, pindexNew, vConnect, i);
      r := ConnectOne(index, view, vConnect[i], w, had, others);
      if r != BC.Ok {
        Stopped(vConnect, w, had, i);
        return r, vConnect[i];
      }
    }
    NotStopped(vConnect, w, had);
    r := BC.Ok;
  }

  lemma StepUp(index: set<CBlockIndex>, tip: CBlockIndex, h: nat)
    requires TreeOk(index) && tip in index && h <= tip.nHeight
    ensures Anc(tip, h) in index && Anc(tip, h).pprev == if h == 0 then null else Anc(tip, h - 1)
  {
    if h > 0 { AncPrev(tip, h); }
    AncInTree(index, tip, h);
  }

  // ---------- the pnext links ----------

  /** The blocks whose links a walk from `nHeight` to `tip` touches. */
  ghost predicate OnStretch(b: CBlockIndex, tip: CBlockIndex?, nHeight: int)
    requires tip != null ==> tip.Linked()
  {
    tip != null && nHeight <= b.nHeight < tip.nHeight && OnChain(b, tip)
  }

  /** Writes the link of the one block at a given height of a chain. */
  method SetNext(index: set<CBlockIndex>, tip: CBlockIndex, b: CBlockIndex, pnext: CBlockIndex?)
    requires tip.Linked() && b in index && OnChain(b, tip) && b.nHeight < tip.nHeight
    modifies b`pnext
    ensures forall x | x in index ::
              x.pnext == if x.nHeight == b.nHeight && OnChain(x, tip) then pnext else old(x.pnext)
  {
    forall x: CBlockIndex | x in index && x != b && x.nHeight == b.nHeight ensures !OnChain(x, tip) {}
    hide Anc;
    b.pnext := pnext;
  }

  /** Unlinks every block that is being left, from the top down. */
  method Unlink(index: set<CBlockIndex>, best: CBlockIndex?, pfork: CBlockIndex?, vDisconnect: seq<CBlockIndex>)
    requires TreeOk(index) && (best != null ==> best in index)
    requires ForkOf(pfork, best) && (best == null <==> pfork == null)
    requires |vDisconnect| == HeightOf(best) - HeightOf(pfork)
    requires forall i | 0 <= i < |vDisconnect| :: vDisconnect[i] == Anc(best, best.nHeight - i)
    modifies index`pnext
    ensures forall b | b in index :: b.pnext == if OnStretch(b, best, HeightOf(pfork)) then null else old(b.pnext)
  {
    hide TreeOk, OnChain;
    for i := 0 to |vDisconnect|
      invariant forall b | b in index ::
                  b.pnext == if OnStretch(b, best, HeightOf(best) - i) then null else old(b.pnext)
    {
      StepUp(index, best, best.nHeight - i);
      StepUp(index, best, best.nHeight - i - 1);
      AncOnChain(best, best.nHeight - i - 1);
      if vDisconnect[i].pprev != null { SetNext(index, best, vDisconnect[i].pprev, null); }
    }
  }

  lemma AncOnChain(tip: CBlockIndex, h: nat)
    requires tip.Linked() && h <= tip.nHeight
    ensures OnChain(Anc(tip, h), tip)
  {
  }

  /** Links every block that is being joined, from the fork up. */
  method Link(index: set<CBlockIndex>, pfork: CBlockIndex?, pindexNew: CBlockIndex, vConnect: seq<CBlockIndex>)
    requires TreeOk(index) && pindexNew in index && ForkOf(pfork, pindexNew)
    requires |vConnect| == HeightOf(pindexNew) - HeightOf(pfork)
    requires forall i | 0 <= i < |vConnect| :: vConnect[i] == Anc(pindexNew, HeightOf(pfork) + 1 + i)
    modifies index`pnext
    ensures forall b | b in index ::
              b.pnext == if OnStretch(b, pindexNew, HeightOf(pfork)) then NextOf(b, pindexNew) else old(b.pnext)
  {
    hide TreeOk, OnChain, Anc;
    for i := 0 to |vConnect|
      invariant forall b | b in index ::
                  b.pnext ==
                    if OnStretch(b, pindexNew, HeightOf(pfork)) &&
                      b.nHeight < HeightOf(pfork) + i then NextOf(b, pindexNew) else old(b.pnext)
    {
      var h := HeightOf(pfork) + 1 + i;
      StepUp(index, pindexNew, h);
      if h > 0 {
        StepUp(index, pindexNew, h - 1);
        AncOnChain(pindexNew, h - 1);
        SetNext(index, pindexNew, vConnect[i].pprev, vConnect[i]);
      }
    }
  }

  /** The link of a block after both loops. */
  ghost function LinkAfter(b: CBlockIndex, pnext: CBlockIndex?, best: CBlockIndex?, nForkHeight: int,
                           pindexNew: CBlockIndex): CBlockIndex?
    requires pindexNew.Linked() && (best != null ==> best.Linked())
  {
    if OnStretch(b, pindexNew, nForkHeight) then NextOf(b, pindexNew)
    else if OnStretch(b, best, nForkHeight) then null
    else pnext
  }

  /** The two relinking loops of `SetBestChain`, over the blocks that the coin view leaves and
      joins. */
  method Relink(index: set<CBlockIndex>, best: CBlockIndex?, pfork: CBlockIndex?, pindexNew: CBlockIndex,
                vDisconnect: seq<CBlockIndex>, vConnect: seq<CBlockIndex>)
    requires TreeOk(index) && (best != null ==> best in index) && pindexNew in index
    requires IsRoute(best, pfork, pindexNew, vDisconnect, vConnect)
    modifies index`pnext
    ensures forall b | b in index :: b.pnext == LinkAfter(b, old(b.pnext), best, HeightOf(pfork), pindexNew)
  {
    hide TreeOk, OnChain, HighestCommon;
    Unlink(index, best, pfork, vDisconnect);
    Link(index, pfork, pindexNew, vConnect);
  }

  /** When the loops leave the right links behind although the links they start from are
      those of `best` and the coin view was at `viewBest`: the fork must be on the chain of
      `best`, and the last link of that chain must lie on a stretch that the loops rewrite. */
  ghost predicate LinksFollow(best: CBlockIndex?, viewBest: CBlockIndex?, pfork: CBlockIndex?, pindexNew: CBlockIndex)
    requires (best != null ==> best.Linked()) && (viewBest != null ==> viewBest.Linked()) && pindexNew.Linked()
  {
    && (HeightOf(pfork) > 0 ==> best != null && OnChain(pfork, best))
    && (best != null && best.pprev != null && best.nHeight > HeightOf(pfork) ==>
          OnStretch(best.pprev, pindexNew, HeightOf(pfork)) || OnStretch(best.pprev, viewBest, HeightOf(pfork)))
  }

  lemma LinksFollowIff(index: set<CBlockIndex>, best: CBlockIndex?, viewBest: CBlockIndex?, pfork: CBlockIndex?,
                       pindexNew: CBlockIndex)
    requires TreeOk(index) && pindexNew in index && (best != null ==> best in index) &&
             (viewBest != null ==> viewBest in index)
    requires (viewBest == null <==> pfork == null) && (viewBest != null ==> HighestCommon(pfork, viewBest, pindexNew))
    ensures LinksFollow(best, viewBest, pfork, pindexNew) <==>
            forall b | b in index ::
              LinkAfter(b, NextOf(b, best), viewBest, HeightOf(pfork), pindexNew) == NextOf(b, pindexNew)
  {
    var f := HeightOf(pfork);
    if LinksFollow(best, viewBest, pfork, pindexNew) {
      forall b | b in index ensures LinkAfter(b, NextOf(b, best), viewBest, f, pindexNew) == NextOf(b, pindexNew) {
        if b.nHeight < f {
          LinkBelowFork(best, pfork, pindexNew, b);
        } else {
          LinkFromFork(best, viewBest, pfork, pindexNew, b);
        }
      }
    } else if f > 0 && !(best != null && OnChain(pfork, best)) {
      MissingLink(index, best, viewBest, pfork, pindexNew);
    } else {
      StaleLink(best, viewBest, f, pindexNew);
    }
  }

  lemma LinkBelowFork(best: CBlockIndex, pfork: CBlockIndex, pindexNew: CBlockIndex, b: CBlockIndex)
    requires best.Linked() && pindexNew.Linked() && OnChain(pfork, best) && OnChain(pfork, pindexNew) &&
             b.nHeight < pfork.nHeight
    ensures NextOf(b, best) == NextOf(b, pindexNew)
  {
    ChainsMerge(best, pindexNew, pfork.nHeight, b.nHeight);
    ChainsMerge(best, pindexNew, pfork.nHeight, b.nHeight + 1);
  }

  lemma LinkFromFork(best: CBlockIndex?, viewBest: CBlockIndex?, pfork: CBlockIndex?, pindexNew: CBlockIndex,
                     b: CBlockIndex)
    requires pindexNew.Linked() && (best != null ==> best.Linked()) && (viewBest != null ==> viewBest.Linked())
    requires LinksFollow(best, viewBest, pfork, pindexNew) && b.nHeight >= HeightOf(pfork)
    ensures LinkAfter(b, NextOf(b, best), viewBest, HeightOf(pfork), pindexNew) == NextOf(b, pindexNew)
  {
    hide Anc, OnChain;
    if best != null && b.nHeight < best.nHeight && OnChain(b, best) {
      var last := best.pprev;
      OnChainBelow(b, best);
      if OnStretch(last, pindexNew, HeightOf(pfork)) {
        OnChainTransitive(b, last, pindexNew);
      } else {
        OnChainTransitive(b, last, viewBest);
      }
    }
  }

  lemma OnChainBelow(b: CBlockIndex, tip: CBlockIndex)
    requires tip.Linked() && OnChain(b, tip) && b.nHeight < tip.nHeight
    ensures tip.pprev != null && OnChain(b, tip.pprev)
  {
  }

  lemma OnChainTransitive(a: CBlockIndex, b: CBlockIndex, tip: CBlockIndex)
    requires tip.Linked() && OnChain(b, tip) && b.Linked() && OnChain(a, b)
    ensures OnChain(a, tip)
  {
    AncAnc(tip, b.nHeight, a.nHeight);
  }

  lemma MissingLink(index: set<CBlockIndex>, best: CBlockIndex?, viewBest: CBlockIndex?, pfork: CBlockIndex,
                    pindexNew: CBlockIndex)
    requires TreeOk(index) && pindexNew in index && (best != null ==> best in index) &&
             (viewBest != null ==> viewBest in index)
    requires OnChain(pfork, pindexNew) && pfork.nHeight > 0 && !(best != null && OnChain(pfork, best))
    ensures exists b | b in index ::
              LinkAfter(b, NextOf(b, best), viewBest, pfork.nHeight, pindexNew) != NextOf(b, pindexNew)
  {
    hide LinkAfter, NextOf, TreeOk;
    StepUp(index, pindexNew, pfork.nHeight);
    StepUp(index, pindexNew, pfork.nHeight - 1);
    InTree(index, pindexNew);
    if best != null { InTree(index, best); }
    if viewBest != null { InTree(index, viewBest); }
    LowLink(best, viewBest, pfork, pindexNew, Anc(pindexNew, pfork.nHeight - 1));
  }

  lemma LowLink(best: CBlockIndex?, viewBest: CBlockIndex?, pfork: CBlockIndex, pindexNew: CBlockIndex, b: CBlockIndex)
    requires pindexNew.Linked() && (best != null ==> best.Linked()) && (viewBest != null ==> viewBest.Linked())
    requires OnChain(pfork, pindexNew) && pfork.nHeight > 0 && !(best != null && OnChain(pfork, best))
    requires b == Anc(pindexNew, pfork.nHeight - 1)
    ensures LinkAfter(b, NextOf(b, best), viewBest, pfork.nHeight, pindexNew) != NextOf(b, pindexNew)
  {
  }

  lemma StaleLink(best: CBlockIndex, viewBest: CBlockIndex?, nForkHeight: int, pindexNew: CBlockIndex)
    requires best.Linked() && best.pprev != null && pindexNew.Linked() && (viewBest != null ==> viewBest.Linked())
    requires best.nHeight > nForkHeight
    requires !OnStretch(best.pprev, pindexNew, nForkHeight) && !OnStretch(best.pprev, viewBest, nForkHeight)
    ensures LinkAfter(best.pprev, NextOf(best.pprev, best), viewBest, nForkHeight, pindexNew) !=
            NextOf(best.pprev, pindexNew)
  {
    AncPrev(best, best.nHeight);
    assert NextOf(best.pprev, best) == best;
  }

  ghost predicate AlreadyOn(b: CBlockIndex, tip: CBlockIndex?) { tip != null && tip.Linked() && OnChain(b, tip) }

  /** A block above the fork on the new branch is not on the old one. */
  lemma BlamedIsNew(index: set<CBlockIndex>, best: CBlockIndex?, pfork: CBlockIndex?, pindexNew: CBlockIndex,
                    vDisconnect: seq<CBlockIndex>, vConnect: seq<CBlockIndex>, b: CBlockIndex)
    requires TreeOk(index) && pindexNew in index && IsRoute(best, pfork, pindexNew, vDisconnect, vConnect)
    requires pindexNew.Linked() && OnChain(b, pindexNew) && b.nHeight > HeightOf(pfork)
    ensures !AlreadyOn(b, best)
  {
  }

  /** A block that a switch is about to connect has no successor while the links are coherent, so
      blaming it never starts another switch. */
  lemma ConnectedHaveNoNext(index: set<CBlockIndex>, best: CBlockIndex?, pfork: CBlockIndex?, pindexNew: CBlockIndex,
                            b: CBlockIndex)
    requires TreeOk(index) && pindexNew in index && (best != null ==> best in index) && NextOk(index, best)
    requires (best == null <==> pfork == null) && (best != null ==> HighestCommon(pfork, best, pindexNew))
    requires b in index && OnChain(b, pindexNew) && b.nHeight > HeightOf(pfork)
    ensures b.pnext == null
  {
    InTree(index, pindexNew);
    if best != null && OnChain(b, best) { InTree(index, best); }
  }

  /** As long as the coin view follows the best block, every switch leaves the right links. */
  lemma LinksFollowCoherent(best: CBlockIndex?, pfork: CBlockIndex?, pindexNew: CBlockIndex)
    requires pindexNew.Linked() && (best != null ==> best.Linked()) && ForkOf(pfork, best)
    ensures LinksFollow(best, best, pfork, pindexNew)
  {
    if best != null && best.nHeight > 0 { AncPrev(best, best.nHeight); }
  }

  /** The block where the coin view's chain and the new one part. */
  ghost predicate PartAt(pfork: CBlockIndex?, viewBest: CBlockIndex?, pindexNew: CBlockIndex) {
    && (viewBest == null <==> pfork == null)
    && (viewBest != null ==> viewBest.Linked() && pindexNew.Linked() && HighestCommon(pfork, viewBest, pindexNew))
  }

  lemma OneFork(p: CBlockIndex?, q: CBlockIndex?, viewBest: CBlockIndex?, pindexNew: CBlockIndex)
    requires PartAt(p, viewBest, pindexNew) && PartAt(q, viewBest, pindexNew)
    ensures p == q
  {
  }

  /** `LinksFollow`, whatever the fork is: what decides whether a switch leaves the right links. */
  ghost predicate SwitchMendsLinks(best: CBlockIndex?, viewBest: CBlockIndex?, pindexNew: CBlockIndex)
    requires (best != null ==> best.Linked()) && (viewBest != null ==> viewBest.Linked()) && pindexNew.Linked()
  {
    if viewBest == null then LinksFollow(best, null, null, pindexNew) else
      forall h: nat | h <= pindexNew.nHeight && PartAt(Anc(pindexNew, h), viewBest, pindexNew) ::
        LinksFollow(best, viewBest, Anc(pindexNew, h), pindexNew)
  }

  lemma MendsAtFork(best: CBlockIndex?, viewBest: CBlockIndex?, pfork: CBlockIndex?, pindexNew: CBlockIndex)
    requires (best != null ==> best.Linked()) && (viewBest != null ==> viewBest.Linked()) && pindexNew.Linked()
    requires PartAt(pfork, viewBest, pindexNew)
    ensures SwitchMendsLinks(best, viewBest, pindexNew) <==> LinksFollow(best, viewBest, pfork, pindexNew)
  {
    hide LinksFollow, Anc;
    if viewBest != null {
      assert pfork == Anc(pindexNew, pfork.nHeight);
      forall h: nat | h <= pindexNew.nHeight && PartAt(Anc(pindexNew, h), viewBest, pindexNew)
        ensures Anc(pindexNew, h) == pfork
      {
        OneFork(pfork, Anc(pindexNew, h), viewBest, pindexNew);
      }
    }
  }

  lemma MendsOnRoute(index: set<CBlockIndex>, best: CBlockIndex?, viewBest: CBlockIndex?, pfork: CBlockIndex?,
                     pindexNew: CBlockIndex, vDisconnect: seq<CBlockIndex>, vConnect: seq<CBlockIndex>)
    requires TreeOk(index) && pindexNew in index && (best != null ==> best in index)
    requires IsRoute(viewBest, pfork, pindexNew, vDisconnect, vConnect)
    ensures pindexNew.Linked() && (best != null ==> best.Linked()) && (viewBest != null ==> viewBest.Linked())
    ensures SwitchMendsLinks(best, viewBest, pindexNew) <==> LinksFollow(best, viewBest, pfork, pindexNew)
  {
    hide LinksFollow, SwitchMendsLinks, HighestCommon;
    MendsAtFork(best, viewBest, pfork, pindexNew);
  }

  /** Once the coin view is at a while g is still the best block, switching to a leaves the links of
      g: both loops start from a and have nothing to do. */
  lemma LinksLeftBehind(g: CBlockIndex, a: CBlockIndex)
    requires a.Linked() && a.pprev == g && g.pprev == null
    ensures HighestCommon(a, a, a) && !LinksFollow(g, a, a, a) && !SwitchMendsLinks(g, a, a)
    ensures LinkAfter(g, NextOf(g, g), a, HeightOf(a), a) == null && NextOf(g, a) == a
  {
    assert g.Linked();
    AncPrev(a, 1);
    MendsAtFork(g, a, a, a);
  }

  // ---------- when a switch goes through ----------

  /** The blocks that a switch from one tip to another disconnects, and those that it connects. */
  ghost predicate Leaves(b: CBlockIndex, tip: CBlockIndex?, pindexNew: CBlockIndex) {
    AlreadyOn(b, tip) && !AlreadyOn(b, pindexNew)
  }

  ghost predicate Joins(b: CBlockIndex, tip: CBlockIndex?, pindexNew: CBlockIndex) {
    AlreadyOn(b, pindexNew) && !AlreadyOn(b, tip)
  }

  ghost predicate AllLeave(index: set<CBlockIndex>, tip: CBlockIndex?, pindexNew: CBlockIndex, w: World) {
    forall b | b in index && Leaves(b, tip, pindexNew) :: w.ReadBack(b)
  }

  ghost predicate AllJoin(index: set<CBlockIndex>, tip: CBlockIndex?, pindexNew: CBlockIndex, w: World,
                          had: set<CBlockIndex>) {
    forall b | b in index && Joins(b, tip, pindexNew) :: CanJoin(b, w, had)
  }

  /** The lowest of the blocks to connect that cannot join. */
  ghost predicate StopsAt(index: set<CBlockIndex>, tip: CBlockIndex?, pindexNew: CBlockIndex, w: World,
                          had: set<CBlockIndex>, bad: CBlockIndex) {
    && bad in index && Joins(bad, tip, pindexNew) && !CanJoin(bad, w, had)
    && forall b | b in index && Joins(b, tip, pindexNew) && b.nHeight < bad.nHeight :: CanJoin(b, w, had)
  }

  /** Everything up to the flush goes through. */
  ghost predicate Prepares(index: set<CBlockIndex>, tip: CBlockIndex?, pindexNew: CBlockIndex, w: World,
                           had: set<CBlockIndex>) {
    AllLeave(index, tip, pindexNew, w) && AllJoin(index, tip, pindexNew, w, had)
  }

  /** The lowest block that stops the switch is there to be blamed. */
  ghost predicate Blames(index: set<CBlockIndex>, tip: CBlockIndex?, pindexNew: CBlockIndex, w: World,
                         had: set<CBlockIndex>) {
    && AllLeave(index, tip, pindexNew, w)
    && exists b | b in index :: StopsAt(index, tip, pindexNew, w, had, b) && FoundInvalid(b, w)
  }

  /** The two lists of a route are the blocks to disconnect and those to connect, lowest first. */
  lemma RouteBlocks(index: set<CBlockIndex>, best: CBlockIndex?, pfork: CBlockIndex?, pindexNew: CBlockIndex,
                    vDisconnect: seq<CBlockIndex>, vConnect: seq<CBlockIndex>)
    requires TreeOk(index) && pindexNew in index && (best != null ==> best in index)
    requires IsRoute(best, pfork, pindexNew, vDisconnect, vConnect)
    ensures forall b :: b in vDisconnect <==> b in index && Leaves(b, best, pindexNew)
    ensures forall b :: b in vConnect <==> b in index && Joins(b, best, pindexNew)
    ensures forall i, k | 0 <= i < k < |vConnect| :: vConnect[i].nHeight < vConnect[k].nHeight
  {
    hide TreeOk, Anc, OnChain;
    InTree(index, pindexNew);
    if best != null { InTree(index, best); }
    forall b ensures b in vDisconnect <==> b in index && Leaves(b, best, pindexNew) {
      InDisconnect(index, best, pfork, pindexNew, vDisconnect, vConnect, b);
    }
    forall b ensures b in vConnect <==> b in index && Joins(b, best, pindexNew) {
      InConnect(index, best, pfork, pindexNew, vDisconnect, vConnect, b);
    }
  }

  /** A block on both chains is not above the fork, and a block up to the fork is on both. */
  lemma BothChains(best: CBlockIndex, pfork: CBlockIndex, pindexNew: CBlockIndex, b: CBlockIndex)
    requires best.Linked() && pindexNew.Linked() && HighestCommon(pfork, best, pindexNew)
    ensures OnChain(b, best) && b.nHeight <= pfork.nHeight ==> OnChain(b, pindexNew)
    ensures OnChain(b, pindexNew) && b.nHeight <= pfork.nHeight ==> OnChain(b, best)
    ensures OnChain(b, best) && OnChain(b, pindexNew) ==> b.nHeight <= pfork.nHeight
  {
    if b.nHeight <= pfork.nHeight { ChainsMerge(best, pindexNew, pfork.nHeight, b.nHeight); }
  }

  lemma InDisconnect(index: set<CBlockIndex>, best: CBlockIndex?, pfork: CBlockIndex?, pindexNew: CBlockIndex,
                     vDisconnect: seq<CBlockIndex>, vConnect: seq<CBlockIndex>, b: CBlockIndex)
    requires TreeOk(index) && pindexNew in index && pindexNew.Linked()
    requires best != null ==> best in index && best.Linked()
    requires IsRoute(best, pfork, pindexNew, vDisconnect, vConnect)
    ensures b in vDisconnect <==> b in index && Leaves(b, best, pindexNew)
  {
    hide TreeOk, Anc, HighestCommon;
    if best != null {
      BothChains(best, pfork, pindexNew, b);
      if b in vDisconnect {
        var i :| 0 <= i < |vDisconnect| && vDisconnect[i] == b;
        StepUp(index, best, best.nHeight - i);
        AncOnChain(best, best.nHeight - i);
      }
      if AlreadyOn(b, best) && b.nHeight > pfork.nHeight { assert vDisconnect[best.nHeight - b.nHeight] == b; }
    }
  }

  lemma InConnect(index: set<CBlockIndex>, best: CBlockIndex?, pfork: CBlockIndex?, pindexNew: CBlockIndex,
                  vDisconnect: seq<CBlockIndex>, vConnect: seq<CBlockIndex>, b: CBlockIndex)
    requires TreeOk(index) && pindexNew in index && pindexNew.Linked()
    requires best != null ==> best in index && best.Linked()
    requires IsRoute(best, pfork, pindexNew, vDisconnect, vConnect)
    ensures b in vConnect <==> b in index && Joins(b, best, pindexNew)
  {
    hide TreeOk, Anc, HighestCommon;
    if best != null { BothChains(best, pfork, pindexNew, b); }
    if b in vConnect {
      var i :| 0 <= i < |vConnect| && vConnect[i] == b;
      StepUp(index, pindexNew, HeightOf(pfork) + 1 + i);
      AncOnChain(pindexNew, HeightOf(pfork) + 1 + i);
    }
    if AlreadyOn(b, pindexNew) && b.nHeight > HeightOf(pfork) {
      assert vConnect[b.nHeight - HeightOf(pfork) - 1] == b;
    }
  }

  /** So the verdict on the lists is the verdict on the blocks. */
  lemma RouteVerdict(index: set<CBlockIndex>, best: CBlockIndex?, pfork: CBlockIndex?, pindexNew: CBlockIndex,
                     vDisconnect: seq<CBlockIndex>, vConnect: seq<CBlockIndex>, w: World, had: set<CBlockIndex>)
    requires TreeOk(index) && pindexNew in index && (best != null ==> best in index)
    requires IsRoute(best, pfork, pindexNew, vDisconnect, vConnect)
    ensures AllLeave(index, best, pindexNew, w) <==> forall b | b in vDisconnect :: w.ReadBack(b)
    ensures AllJoin(index, best, pindexNew, w, had) <==> JoinAll(vConnect, w, had)
    ensures forall b | FirstStop(vConnect, w, had, b) :: StopsAt(index, best, pindexNew, w, had, b)
    ensures forall b :: b in vConnect <==> b in index && Joins(b, best, pindexNew)
  {
    hide TreeOk, IsRoute, Leaves, Joins, CanJoin, World.ReadBack;
    RouteBlocks(index, best, pfork, pindexNew, vDisconnect, vConnect);
    forall b | FirstStop(vConnect, w, had, b) ensures StopsAt(index, best, pindexNew, w, had, b) {
      var i :| 0 <= i < |vConnect| && vConnect[i] == b && forall k | 0 <= k < i :: CanJoin(vConnect[k], w, had);
      forall x | x in index && Joins(x, best, pindexNew) && x.nHeight < b.nHeight ensures CanJoin(x, w, had) {
        var k :| 0 <= k < |vConnect| && vConnect[k] == x;
      }
    }
  }

  lemma StopJoins(index: set<CBlockIndex>, tip: CBlockIndex?, pindexNew: CBlockIndex, w: World, had: set<CBlockIndex>,
                  bad: CBlockIndex)
    requires StopsAt(index, tip, pindexNew, w, had, bad)
    ensures bad in index && Joins(bad, tip, pindexNew)
  {
  }

  /** There is one lowest block that stops a switch, so it alone decides. */
  lemma StopDecides(index: set<CBlockIndex>, tip: CBlockIndex?, pindexNew: CBlockIndex, w: World,
                    had: set<CBlockIndex>, stop: CBlockIndex)
    requires TreeOk(index) && StopsAt(index, tip, pindexNew, w, had, stop) && AllLeave(index, tip, pindexNew, w)
    ensures Blames(index, tip, pindexNew, w, had) <==> FoundInvalid(stop, w)
    ensures !AllJoin(index, tip, pindexNew, w, had)
  {
    hide TreeOk, CanJoin, FoundInvalid, AllLeave;
    forall b | b in index && StopsAt(index, tip, pindexNew, w, had, b) ensures b == stop {
      assert b.nHeight == stop.nHeight;
    }
  }

  lemma RouteKnown(index: set<CBlockIndex>, best: CBlockIndex?, pfork: CBlockIndex?, pindexNew: CBlockIndex,
                   vDisconnect: seq<CBlockIndex>, vConnect: seq<CBlockIndex>)
    requires TreeOk(index) && pindexNew in index && IsRoute(best, pfork, pindexNew, vDisconnect, vConnect)
    ensures forall b | b in vConnect :: b in index
    ensures pfork == null ==> |vConnect| > 0 && vConnect[0].pprev == null
  {
    hide TreeOk;
    BranchKnown(index, pfork, pindexNew, vConnect);
  }

  lemma RouteParts(best: CBlockIndex?, pfork: CBlockIndex?, pindexNew: CBlockIndex,
                   vDisconnect: seq<CBlockIndex>, vConnect: seq<CBlockIndex>)
    requires IsRoute(best, pfork, pindexNew, vDisconnect, vConnect)
    ensures ForkOf(pfork, best) && ForkOf(pfork, pindexNew) && (pfork == null <==> best == null)
    ensures |vDisconnect| == HeightOf(best) - HeightOf(pfork) && |vConnect| == HeightOf(pindexNew) - HeightOf(pfork)
    ensures forall i | 0 <= i < |vDisconnect| :: vDisconnect[i] == Anc(best, best.nHeight - i)
    ensures forall i | 0 <= i < |vConnect| :: vConnect[i] == Anc(pindexNew, HeightOf(pfork) + 1 + i)
  {
  }

  /** The two loops of `SetBestChain` over blocks, on a view that starts at the old tip. */
  method TryRoute(index: set<CBlockIndex>, view: CoinsViewCache, pfork: CBlockIndex?, pindexNew: CBlockIndex,
                  vDisconnect: seq<CBlockIndex>, vConnect: seq<CBlockIndex>, w: World, ghost others: seq<Layer>)
    returns (r: BC.Outcome, stop: CBlockIndex)
    requires TreeOk(index) && view.Valid() && GoodView(index, view.Top()) && view.Top().best == view.pindexTip
    requires GoodViews(index, others) && pindexNew in index && (view.pindexTip != null ==> view.pindexTip in index)
    requires IsRoute(view.pindexTip, pfork, pindexNew, vDisconnect, vConnect)
    modifies view.Repr, index`undo
    ensures view.Below() == old(view.Below()) && GoodViews(index, others) && stop in index
    ensures r == BC.Ok <==> Prepares(index, old(view.pindexTip), pindexNew, w, old(WithUndo(index)))
    ensures r == BC.Invalid <==> Blames(index, old(view.pindexTip), pindexNew, w, old(WithUndo(index)))
    ensures r == BC.Invalid ==>
              StopsAt(index, old(view.pindexTip), pindexNew, w, old(WithUndo(index)), stop) && FoundInvalid(stop, w)
    ensures r == BC.Invalid ==> Joins(stop, old(view.pindexTip), pindexNew)
    ensures forall x | x in index && !Joins(x, old(view.pindexTip), pindexNew) :: x.undo == old(x.undo)
    ensures r == BC.Ok ==> GoodView(index, view.Top()) && view.Top().best == view.pindexTip == pindexNew
  {
    hide CoinsViewCache.Top, CoinsViewCache.Below, CoinsViewCache.Under, TreeOk, GoodView, GoodViews, Anc, OnChain,
         Joins, CanJoin, FoundInvalid, AllLeave, AllJoin, StopsAt, Blames, FirstStop, JoinAll, IsRoute, ForkOf,
         World.ReadBack, WithUndo;
    ghost var best, had := view.pindexTip, WithUndo(index);
    RouteVerdict(index, best, pfork, pindexNew, vDisconnect, vConnect, w, had);
    RouteParts(best, pfork, pindexNew, vDisconnect, vConnect);
    HadUndo(index);
    BranchKnown(index, pfork, pindexNew, vConnect);
    var ok := DisconnectAll(index, view, pfork, vDisconnect, w, others);
    if !ok {
      NoBlame(index, best, pindexNew, w, had);
      return BC.Error, pindexNew;
    }
    r, stop := ConnectAll(index, view, pfork, pindexNew, vConnect, w, had, others);
    if r != BC.Ok {
      StopDecides(index, best, pindexNew, w, had, stop);
      StopJoins(index, best, pindexNew, w, had, stop);
    } else {
      AllThrough(index, best, pindexNew, w, had);
    }
  }

  lemma NoBlame(index: set<CBlockIndex>, tip: CBlockIndex?, pindexNew: CBlockIndex, w: World, had: set<CBlockIndex>)
    requires !AllLeave(index, tip, pindexNew, w)
    ensures !Blames(index, tip, pindexNew, w, had)
  {
  }

  lemma AllThrough(index: set<CBlockIndex>, tip: CBlockIndex?, pindexNew: CBlockIndex, w: World, had: set<CBlockIndex>)
    requires AllJoin(index, tip, pindexNew, w, had)
    ensures !Blames(index, tip, pindexNew, w, had)
  {
    hide CanJoin, Joins;
  }

  // ---------- switching to another chain ----------

  class ChainState {
    var mapBlockIndex: set<CBlockIndex>
    var setBlockIndexValid: set<CBlockIndex>
    var pindexGenesisBlock: CBlockIndex?
    var pindexBest: CBlockIndex?
    var nBestHeight: int
    var nBestChainWork: nat
    var pblockindexFBBHLast: CBlockIndex?
    const pcoinsTip: CoinsViewCache

    /** What holds after any run, aborted or not: the coin view shows the unspent coins of the
        chain ending in its best block, the database below it shows those of the chain ending in
        the block it names, and no candidate carries a failure flag. */
    ghost predicate Valid()
      reads this, mapBlockIndex, pcoinsTip.Repr
    {
      && pcoinsTip.Valid() && pcoinsTip.base == null
      && TreeOk(mapBlockIndex)
      && GoodView(mapBlockIndex, pcoinsTip.Top())
      && GoodView(mapBlockIndex, pcoinsTip.Under())
      && CandidatesOk()
      && BestOk()
      && GenesisOk(pcoinsTip.Top().best != null)
    }

    ghost predicate CandidatesOk()
      reads this`mapBlockIndex, this`setBlockIndexValid, mapBlockIndex`failedValid, mapBlockIndex`failedChild
    {
      setBlockIndexValid <= mapBlockIndex && forall b | b in setBlockIndexValid :: !b.Failed()
    }

    /** The genesis block is known as soon as some view has a best block. */
    ghost predicate GenesisOk(fViewHasBest: bool)
      reads this`pindexGenesisBlock, this`pindexBest, this`mapBlockIndex
    {
      && (pindexGenesisBlock != null ==> pindexGenesisBlock in mapBlockIndex && pindexGenesisBlock.pprev == null)
      && (pindexBest != null || fViewHasBest ==> pindexGenesisBlock != null)
    }

    ghost predicate BestOk()
      reads this`pindexBest, this`mapBlockIndex, this`nBestHeight, this`nBestChainWork
    {
      pindexBest != null ==>
        && pindexBest in mapBlockIndex
        && nBestHeight == pindexBest.nHeight && nBestChainWork == pindexBest.nChainWork
    }

    /** What also holds as long as no switch was aborted after its flush: the coin view
        follows `pindexBest`, the links mark its chain, and so does the remembered block. */
    ghost predicate Coherent()
      requires Valid()
      reads this, mapBlockIndex, pcoinsTip.Repr
    {
      pcoinsTip.Top().best == pindexBest && NextOk(mapBlockIndex, pindexBest) && RememberedOk()
    }

    ghost predicate RememberedOk()
      requires pindexBest != null ==> pindexBest.Linked()
      reads this`pblockindexFBBHLast, this`pindexBest
    {
      pblockindexFBBHLast != null ==> pindexBest != null && OnChain(pblockindexFBBHLast, pindexBest)
    }

    /** The two layers of the coin view. */
    lemma TwoLayers()
      requires pcoinsTip.Valid() && pcoinsTip.base == null && TreeOk(mapBlockIndex)
      ensures pcoinsTip.Stack() == [pcoinsTip.Under(), pcoinsTip.Top()]
      ensures GoodViews(mapBlockIndex, pcoinsTip.Stack()) <==>
                GoodView(mapBlockIndex, pcoinsTip.Under()) && GoodView(mapBlockIndex, pcoinsTip.Top())
    {
      hide GoodView;
      var views := pcoinsTip.Stack();
      assert views == [pcoinsTip.Under(), pcoinsTip.Top()];
      assert views[0] == pcoinsTip.Under() && views[1] == pcoinsTip.Top();
    }

    lemma NotOfView(view: CoinsViewCache)
      requires view.Valid()
      ensures this !in view.Repr && forall b: CBlockIndex :: b !in view.Repr
    {
    }

    lemma BottomOfStack()
      requires pcoinsTip.Valid() && pcoinsTip.base == null
      ensures pcoinsTip.Stack() != [] && pcoinsTip.Stack()[0] == pcoinsTip.Under()
    {
    }

    lemma BestKnown()
      requires BestOk()
      ensures pindexBest != null ==> pindexBest in mapBlockIndex
    {
    }

    /** What a switch comes to before its flush. */
    ghost predicate Verdict(r: Switch, bad: CBlockIndex?, tip: CBlockIndex?, pindexNew: CBlockIndex, w: World,
                            had: set<CBlockIndex>)
      reads this`mapBlockIndex
    {
      && (r == Switched <==> Prepares(mapBlockIndex, tip, pindexNew, w, had))
      && (r == Rejected <==> Blames(mapBlockIndex, tip, pindexNew, w, had))
      && (bad != null ==> StopsAt(mapBlockIndex, tip, pindexNew, w, had, bad) && FoundInvalid(bad, w))
    }

    /** `Valid`, part by part. */
    lemma ValidParts()
      ensures Valid() <==>
        && pcoinsTip.Valid() && pcoinsTip.base == null && TreeOk(mapBlockIndex) &&
           GoodViews(mapBlockIndex, pcoinsTip.Stack())
        && CandidatesOk() && BestOk() && GenesisOk(pcoinsTip.Top().best != null)
    {
      hide GoodView, GoodViews, CoinsViewCache.Top, CoinsViewCache.Under, CoinsViewCache.Stack;
      if pcoinsTip.Valid() && pcoinsTip.base == null && TreeOk(mapBlockIndex) { TwoLayers(); }
    }

    /** An empty chain state over an empty database. */
    constructor ()
      ensures Valid() && Coherent() && mapBlockIndex == {} && pindexBest == null
    {
      mapBlockIndex, setBlockIndexValid := {}, {};
      pindexGenesisBlock, pindexBest, nBestHeight, nBestChainWork, pblockindexFBBHLast := null, null, -1, 0, null;
      var db := new CoinsViewDB();
      pcoinsTip := new CoinsViewCache.OverDatabase(db);
      new;
      assert Shows(pcoinsTip.Top().coins, map[]) && Shows(pcoinsTip.Under().coins, map[]);
      TwoLayers();
    }

    /** A chain state over a coin view and a block index that were just loaded, at the best block of
        the view. */
    constructor Load(view: CoinsViewCache, best: CBlockIndex?, index: set<CBlockIndex>, valid: set<CBlockIndex>,
                     genesis: CBlockIndex?)
      requires TreeOk(index) && view.Valid() && view.base == null && best == view.Top().best
      requires GoodView(index, view.Top()) && GoodView(index, view.Under())
      requires valid <= index && forall b | b in valid :: !b.Failed()
      requires genesis != null ==> genesis in index && genesis.pprev == null
      requires best != null ==> genesis != null
      ensures Valid() && mapBlockIndex == index && setBlockIndexValid == valid && pcoinsTip == view
      ensures pindexBest == best && pblockindexFBBHLast == null
    {
      mapBlockIndex, setBlockIndexValid, pindexGenesisBlock, pindexBest, pblockindexFBBHLast :=
        index, valid, genesis, best, null;
      nBestHeight := if best == null then -1 else best.nHeight;
      nBestChainWork := if best == null then 0 else best.nChainWork;
      pcoinsTip := view;
    }

    /** `InvalidBlockFound`: the block is blamed and stops being a candidate. */
    method InvalidBlockFound(pindex: CBlockIndex)
      requires CandidatesOk() && pindex in mapBlockIndex
      modifies this`setBlockIndexValid, pindex`failedValid
      ensures CandidatesOk() && pindex.failedValid && setBlockIndexValid == old(setBlockIndexValid) - {pindex}
    {
      pindex.failedValid := true;
      setBlockIndexValid := setBlockIndexValid - {pindex};
    }

    /** Writes the coins to disk now and then; any step may fail. */
    method FlushTip(w: World) returns (ok: bool)
      requires TreeOk(mapBlockIndex) && pcoinsTip.Valid() && pcoinsTip.base == null &&
               GoodViews(mapBlockIndex, pcoinsTip.Stack())
      modifies pcoinsTip.Repr
      ensures ok <==> w.FlushOk()
      ensures ok <==> !w.fFlush || (w.fDiskSpace && w.fCoinsWritten)
      ensures ok && w.fFlush ==> pcoinsTip.Under().best == old(pcoinsTip.Top()).best
      ensures !ok || !w.fFlush ==> pcoinsTip.Under() == old(pcoinsTip.Under())
      ensures GoodViews(mapBlockIndex, pcoinsTip.Stack()) && pcoinsTip.Top().best == old(pcoinsTip.Top()).best
    {
      hide TreeOk, GoodView, GoodViews, CoinsViewCache.Top, CoinsViewCache.Below, CoinsViewCache.Under,
           CoinsViewCache.Stack;
      if !w.fFlush { return true; }
      if !w.fDiskSpace { return false; }
      ghost var before := pcoinsTip.Top();
      TwoLayers();
      ok := pcoinsTip.Flush(w.fCoinsWritten);
      if ok {
        StillGood(mapBlockIndex, before, pcoinsTip.Top());
        StillGood(mapBlockIndex, before, pcoinsTip.Under());
      }
      TwoLayers();
    }

    /** Disconnects down to the fork and connects up to the new best block, all in a cache
        on top of the coin view; the coin view itself shows what it showed before. */
    method BuildView(view: CoinsViewCache, pfork: CBlockIndex?, pindexNew: CBlockIndex,
                     vDisconnect: seq<CBlockIndex>, vConnect: seq<CBlockIndex>, w: World)
      returns (r: Switch, bad: CBlockIndex?)
      requires TreeOk(mapBlockIndex) && CandidatesOk() && pcoinsTip.Valid() &&
               GoodViews(mapBlockIndex, pcoinsTip.Stack())
      requires view.Valid() && view.base == pcoinsTip && view !in pcoinsTip.Repr
      requires GoodView(mapBlockIndex, view.Top()) && view.Top().best == view.pindexTip
      requires pindexNew in mapBlockIndex && (view.pindexTip != null ==> view.pindexTip in mapBlockIndex)
      requires IsRoute(view.pindexTip, pfork, pindexNew, vDisconnect, vConnect)
      requires GenesisOk(pfork != null)
      modifies view.Repr, mapBlockIndex`undo, mapBlockIndex`failedValid, this`setBlockIndexValid,
               this`pindexGenesisBlock
      ensures r in {Switched, Rejected, Failed}
      ensures pcoinsTip.Stack() == old(pcoinsTip.Stack()) && pcoinsTip.Top() == old(pcoinsTip.Top())
      ensures GoodViews(mapBlockIndex, pcoinsTip.Stack()) && CandidatesOk()
      ensures GenesisOk(pfork != null) && (r == Switched ==> GenesisOk(true))
      ensures r == Switched ==> GoodView(mapBlockIndex, view.Top()) && view.Top().best == view.pindexTip == pindexNew
      ensures r == Rejected <==> bad != null
      ensures bad != null ==> bad in mapBlockIndex && Joins(bad, old(view.pindexTip), pindexNew)
      ensures Verdict(r, bad, old(view.pindexTip), pindexNew, w, old(WithUndo(mapBlockIndex)))
      ensures forall x | x in mapBlockIndex && !Joins(x, old(view.pindexTip), pindexNew) :: x.undo == old(x.undo)
      ensures forall x | x in mapBlockIndex :: x.failedValid == (old(x.failedValid) || x == bad)
      ensures setBlockIndexValid == old(setBlockIndexValid) - {bad}
    {
      hide CoinsViewCache.Top, CoinsViewCache.Below, CoinsViewCache.Under, TreeOk, GoodView, GoodViews, IsRoute, Joins,
           FoundInvalid, Prepares, StopsAt, Blames, CandidatesOk, WithUndo, GenesisOk, Anc, OnChain,
           CoinsViewCache.Valid;
      view.BelowIsBase();
      NotOfView(view);
      NotOfView(pcoinsTip);
      RouteKnown(mapBlockIndex, view.pindexTip, pfork, pindexNew, vDisconnect, vConnect);
      var outcome, stop := TryRoute(mapBlockIndex, view, pfork, pindexNew, vDisconnect, vConnect, w, pcoinsTip.Stack());
      view.BelowIsBase();
      assert view.Under() == view.Below()[|view.Below()| - 1] == old(view.Under());
      r, bad := Conclude(pfork, vConnect, outcome, stop);
    }

    /** What follows from connecting, or not connecting, the blocks of a branch: the genesis block is
        remembered once it is connected, and a block found invalid is blamed. */
    method Conclude(pfork: CBlockIndex?, vConnect: seq<CBlockIndex>, outcome: BC.Outcome, blamed: CBlockIndex)
      returns (r: Switch, bad: CBlockIndex?)
      requires CandidatesOk() && GenesisOk(pfork != null) && blamed in mapBlockIndex
      requires forall b | b in vConnect :: b in mapBlockIndex
      requires pfork == null ==> |vConnect| > 0 && vConnect[0].pprev == null
      modifies mapBlockIndex`failedValid, this`setBlockIndexValid, this`pindexGenesisBlock
      ensures CandidatesOk() && GenesisOk(pfork != null) && (outcome == BC.Ok ==> GenesisOk(true))
      ensures r == if outcome == BC.Ok then Switched else if outcome == BC.Invalid then Rejected else Failed
      ensures bad == if outcome == BC.Invalid then blamed else null
      ensures forall x | x in mapBlockIndex :: x.failedValid == (old(x.failedValid) || x == bad)
      ensures setBlockIndexValid == old(setBlockIndexValid) - {bad}
    {
      if |vConnect| > 0 && vConnect[0].pprev == null && (outcome == BC.Ok || blamed != vConnect[0]) {
        pindexGenesisBlock := vConnect[0];
      }
      bad := null;
      if outcome == BC.Invalid {
        bad := blamed;
        InvalidBlockFound(bad);
      }
      r := if outcome == BC.Ok then Switched else if outcome == BC.Invalid then Rejected else Failed;
    }

    /** Flushes the new view into the coin view; a flush from cache to cache cannot fail. */
    method AdoptView(view: CoinsViewCache)
      requires TreeOk(mapBlockIndex) && pcoinsTip.Valid() && pcoinsTip.base == null &&
               GoodViews(mapBlockIndex, pcoinsTip.Stack())
      requires view.Valid() && view.base == pcoinsTip && GoodView(mapBlockIndex, view.Top())
      requires view.pindexTip != null && view.Top().best == view.pindexTip
      modifies view.Repr
      ensures GoodViews(mapBlockIndex, pcoinsTip.Stack()) && pcoinsTip.Top().best == old(view.Top()).best
      ensures pcoinsTip.Under() == old(pcoinsTip.Under())
    {
      hide CoinsViewCache.Below, CoinsViewCache.Under, CoinsViewCache.Top, TreeOk, GoodView;
      ghost var top := view.Top();
      TwoLayers();
      var flushed := view.Flush(true);
      assert flushed;
      view.BelowIsBase();
      assert pcoinsTip.Top() == top;
      TwoLayers();
    }

    /** The last part of `SetBestChain`: the links, the best block and what goes with it. */
    method MoveTo(best: CBlockIndex?, pfork: CBlockIndex?, pindexNew: CBlockIndex,
                  vDisconnect: seq<CBlockIndex>, vConnect: seq<CBlockIndex>)
      requires TreeOk(mapBlockIndex) && pindexNew in mapBlockIndex && (best != null ==> best in mapBlockIndex) &&
               GenesisOk(true) && BestOk()
      requires IsRoute(best, pfork, pindexNew, vDisconnect, vConnect)
      modifies this`pindexBest, this`nBestHeight, this`nBestChainWork, this`pblockindexFBBHLast, mapBlockIndex`pnext
      ensures BestOk() && GenesisOk(true) && pindexBest == pindexNew && pblockindexFBBHLast == null
      ensures old(NextOk(mapBlockIndex, pindexBest)) ==>
                (NextOk(mapBlockIndex, pindexNew) <==> SwitchMendsLinks(old(pindexBest), best, pindexNew))
      ensures old(NextOk(mapBlockIndex, pindexBest)) && best == old(pindexBest) ==> NextOk(mapBlockIndex, pindexNew)
    {
      hide TreeOk, OnChain, HighestCommon, Anc, LinksFollow, LinkAfter, NextOf, SwitchMendsLinks, PartAt;
      ghost var was := pindexBest;
      RouteFork(best, pfork, pindexNew, vDisconnect, vConnect);
      MendsOnRoute(mapBlockIndex, was, best, pfork, pindexNew, vDisconnect, vConnect);
      LinksFollowIff(mapBlockIndex, was, best, pfork, pindexNew);
      if best == was { LinksFollowCoherent(best, pfork, pindexNew); }
      Relink(mapBlockIndex, best, pfork, pindexNew, vDisconnect, vConnect);
      pindexBest, nBestHeight, nBestChainWork := pindexNew, pindexNew.nHeight, pindexNew.nChainWork;
      pblockindexFBBHLast := null;
    }

    /** The two flushes: the new view into the coin view, and now and then that to disk. */
    method Publish(view: CoinsViewCache, w: World) returns (ok: bool)
      requires TreeOk(mapBlockIndex) && pcoinsTip.Valid() && pcoinsTip.base == null &&
               GoodViews(mapBlockIndex, pcoinsTip.Stack())
      requires view.Valid() && view.base == pcoinsTip && GoodView(mapBlockIndex, view.Top())
      requires view.pindexTip != null && view.pindexTip == view.Top().best
      modifies view.Repr
      ensures ok <==> w.FlushOk()
      ensures ok && w.fFlush ==> pcoinsTip.Under().best == old(view.Top()).best
      ensures !ok || !w.fFlush ==> pcoinsTip.Under() == old(pcoinsTip.Under())
      ensures GoodViews(mapBlockIndex, pcoinsTip.Stack()) && pcoinsTip.Top().best == old(view.Top()).best
    {
      hide CoinsViewCache.Below, CoinsViewCache.Under, CoinsViewCache.Top, TreeOk, GoodView, GoodViews, World.FlushOk;
      AdoptView(view);
      ok := FlushTip(w);
    }

    /** Everything after the new view is built: from the flush on, a failure leaves the coin
        view where the flush put it. */
    method Commit(view: CoinsViewCache, best: CBlockIndex?, pfork: CBlockIndex?, pindexNew: CBlockIndex,
                  vDisconnect: seq<CBlockIndex>, vConnect: seq<CBlockIndex>, w: World) returns (ok: bool)
      requires TreeOk(mapBlockIndex) && pcoinsTip.Valid() && pcoinsTip.base == null &&
               GoodViews(mapBlockIndex, pcoinsTip.Stack())
      requires view.Valid() && view.base == pcoinsTip && GoodView(mapBlockIndex, view.Top())
      requires view.pindexTip == view.Top().best == pindexNew
      requires pindexNew in mapBlockIndex && (best != null ==> best in mapBlockIndex)
      requires GenesisOk(true) && BestOk() && IsRoute(best, pfork, pindexNew, vDisconnect, vConnect)
      modifies view.Repr, this`pindexBest, this`nBestHeight, this`nBestChainWork, this`pblockindexFBBHLast,
               mapBlockIndex`pnext
      ensures GoodViews(mapBlockIndex, pcoinsTip.Stack()) && pcoinsTip.Top().best == pindexNew && BestOk() &&
              GenesisOk(true)
      ensures ok <==> w.FlushOk()
      ensures ok && w.fFlush ==> pcoinsTip.Under().best == pindexNew
      ensures !ok || !w.fFlush ==> pcoinsTip.Under() == old(pcoinsTip.Under())
      ensures ok ==> pindexBest == pindexNew && RememberedOk()
      ensures !ok ==> pindexBest == old(pindexBest)
      ensures ok && old(NextOk(mapBlockIndex, pindexBest)) ==>
                (NextOk(mapBlockIndex, pindexNew) <==> SwitchMendsLinks(old(pindexBest), best, pindexNew))
      ensures ok && old(NextOk(mapBlockIndex, pindexBest)) && best == old(pindexBest) ==>
                NextOk(mapBlockIndex, pindexNew)
      ensures !ok && old(NextOk(mapBlockIndex, pindexBest)) ==> NextOk(mapBlockIndex, pindexBest)
    {
      hide CoinsViewCache.Below, CoinsViewCache.Under, CoinsViewCache.Top, CoinsViewCache.Stack, TreeOk, NextOk,
           IsRoute, BestOk, GenesisOk, GoodView, GoodViews, SwitchMendsLinks, Anc, OnChain, World.FlushOk;
      BestKnown();
      MendsOnRoute(mapBlockIndex, pindexBest, best, pfork, pindexNew, vDisconnect, vConnect);
      ok := Publish(view, w);
      if ok { MoveTo(best, pfork, pindexNew, vDisconnect, vConnect); }
    }

    /** The cache in which a switch is tried out; looking up its best block makes sure that
        flushing it will carry the best block along. */
    method OpenView() returns (view: CoinsViewCache, best: CBlockIndex?)
      requires TreeOk(mapBlockIndex) && pcoinsTip.Valid() && GoodViews(mapBlockIndex, pcoinsTip.Stack())
      modifies pcoinsTip.Repr
      ensures pcoinsTip.Stack() == old(pcoinsTip.Stack()) && pcoinsTip.Top() == old(pcoinsTip.Top())
      ensures fresh(view) && view.Valid() && view.base == pcoinsTip && view.Repr == pcoinsTip.Repr + {view}
      ensures view.Top() == pcoinsTip.Top() && best == view.pindexTip == view.Top().best
      ensures GoodView(mapBlockIndex, view.Top()) && (best != null ==> best in mapBlockIndex)
    {
      hide CoinsViewCache.Below, CoinsViewCache.Under, CoinsViewCache.Top, TreeOk, Replays, UndosOk, ChainHasUndo;
      view := new CoinsViewCache(pcoinsTip);
      best := view.GetBestBlock();
      view.BelowIsBase();
    }

    /** Everything before the flush. */
    method Prepare(pindexNew: CBlockIndex, w: World)
      returns (r: Switch, view: CoinsViewCache, best: CBlockIndex?, pfork: CBlockIndex?, vDisconnect: seq<CBlockIndex>,
               vConnect: seq<CBlockIndex>,
               bad: CBlockIndex?)
      requires Valid() && pindexNew in mapBlockIndex
      modifies pcoinsTip.Repr, mapBlockIndex`undo, mapBlockIndex`failedValid, this`setBlockIndexValid,
               this`pindexGenesisBlock
      ensures Valid() && r in {Switched, Rejected, Failed}
      ensures pcoinsTip.Stack() == old(pcoinsTip.Stack()) && pcoinsTip.Top() == old(pcoinsTip.Top())
      ensures pcoinsTip.Under() == old(pcoinsTip.Under())
      ensures best == pcoinsTip.Top().best && (best != null ==> best in mapBlockIndex)
      ensures IsRoute(best, pfork, pindexNew, vDisconnect, vConnect)
      ensures fresh(view) && view.Valid() && view.base == pcoinsTip && view.Repr == pcoinsTip.Repr + {view}
      ensures r == Switched ==>
                GoodView(mapBlockIndex, view.Top()) && view.Top().best == view.pindexTip == pindexNew && GenesisOk(true)
      ensures r == Rejected <==> bad != null
      ensures Verdict(r, bad, best, pindexNew, w, old(WithUndo(mapBlockIndex)))
      ensures forall x | x in mapBlockIndex && !Joins(x, best, pindexNew) :: x.undo == old(x.undo)
      ensures bad != null ==> bad in mapBlockIndex && Joins(bad, best, pindexNew)
      ensures forall x | x in mapBlockIndex :: x.failedValid == (old(x.failedValid) || x == bad)
      ensures setBlockIndexValid == old(setBlockIndexValid) - {bad}
    {
      hide CoinsViewCache.Below, CoinsViewCache.Under, CoinsViewCache.Top, TreeOk, NextOk, Anc, OnChain, HighestCommon,
           GoodView, GoodViews, IsRoute, Valid, Verdict, Joins, BestOk, GenesisOk, CandidatesOk, WithUndo;
      ValidParts();
      BottomOfStack();
      view, best := OpenView();
      pfork, vDisconnect, vConnect := FindRoute(mapBlockIndex, best, pindexNew);
      r, bad := BuildView(view, pfork, pindexNew, vDisconnect, vConnect, w);
      BottomOfStack();
      ValidParts();
    }

    /** `SetBestChain`.  It succeeds exactly when every block to leave can be read back, every block to
        join can join, and the coins are flushed if they have to be; it blames a block exactly when
        the lowest one that stops it is itself invalid.  On success the coin view, the links and the
        best block have all moved to `pindexNew`; if the switch fails before the flush, nothing an
        observer of the coin view could see has changed, in any of its layers. */
    method SetBestChain(pindexNew: CBlockIndex, w: World) returns (r: Switch, bad: CBlockIndex?)
      requires Valid() && pindexNew in mapBlockIndex
      modifies this, mapBlockIndex, pcoinsTip.Repr
      ensures Valid() && mapBlockIndex == old(mapBlockIndex)
      ensures var (tip, had) := (old(pcoinsTip.Top()).best, old(WithUndo(mapBlockIndex)));
              && (r == Switched <==> Prepares(mapBlockIndex, tip, pindexNew, w, had) && w.FlushOk())
              && (r == AbortedAfterFlush <==> Prepares(mapBlockIndex, tip, pindexNew, w, had) && !w.FlushOk())
              && (r == Rejected <==> Blames(mapBlockIndex, tip, pindexNew, w, had))
              && (bad != null ==> StopsAt(mapBlockIndex, tip, pindexNew, w, had, bad) && FoundInvalid(bad, w))
      ensures forall x | x in mapBlockIndex && !Joins(x, old(pcoinsTip.Top()).best, pindexNew) :: x.undo == old(x.undo)
      ensures r == Switched ==> pindexBest == pcoinsTip.Top().best == pindexNew
      ensures r == Switched && w.fFlush ==> pcoinsTip.Under().best == pindexNew
      ensures r != Switched || !w.fFlush ==> pcoinsTip.Under() == old(pcoinsTip.Under())
      ensures r == Switched && old(Coherent()) ==> Coherent()
      ensures r != Switched ==> pindexBest == old(pindexBest)
      ensures r in {Rejected, Failed} ==> pcoinsTip.Stack() == old(pcoinsTip.Stack())
      ensures r in {Rejected, Failed} && old(Coherent()) ==> Coherent()
      ensures r == Switched && old(NextOk(mapBlockIndex, pindexBest)) ==>
                (NextOk(mapBlockIndex, pindexNew) <==>
                  SwitchMendsLinks(old(pindexBest), old(pcoinsTip.Top()).best, pindexNew))
      ensures r != Switched && old(NextOk(mapBlockIndex, pindexBest)) ==> NextOk(mapBlockIndex, pindexBest)
      ensures r == AbortedAfterFlush ==> pcoinsTip.Top().best == pindexNew
      ensures r == Rejected <==> bad != null
      ensures bad != null ==> bad in mapBlockIndex && Joins(bad, old(pcoinsTip.Top()).best, pindexNew)
      ensures forall x | x in mapBlockIndex ::
                x.failedValid == (old(x.failedValid) || x == bad) && x.failedChild == old(x.failedChild)
      ensures setBlockIndexValid == old(setBlockIndexValid) - {bad}
    {
      hide CoinsViewCache.Below, CoinsViewCache.Under, CoinsViewCache.Top, TreeOk, NextOk, IsRoute, GoodView,
           SwitchMendsLinks, Anc, OnChain, AlreadyOn, CandidatesOk, GenesisOk, Valid, Prepares,
           Blames, StopsAt, FoundInvalid, Joins, World.FlushOk, GoodViews, WithUndo;
      ValidParts();
      var view, best, pfork, vDisconnect, vConnect;
      r, view, best, pfork, vDisconnect, vConnect, bad := Prepare(pindexNew, w);
      ValidParts();
      if r == Switched {
        var ok := Commit(view, best, pfork, pindexNew, vDisconnect, vConnect, w);
        if !ok { r := AbortedAfterFlush; }
        ValidParts();
      }
    }
  }
  /** Two switches to the same block, the first aborted behind its flush: the second one succeeds and
      leaves the wrong links. */
  method LinksLostAfterAbort(cs: ChainState, g: CBlockIndex, a: CBlockIndex, v: World, w: World)
    returns (first: Switch, second: Switch)
    requires cs.Valid() && cs.Coherent() && cs.pindexBest == g && g.pprev == null
    requires a in cs.mapBlockIndex && a.pprev == g
    modifies cs, cs.mapBlockIndex, cs.pcoinsTip.Repr
    ensures first == AbortedAfterFlush <==> CanJoin(a, v, old(WithUndo(cs.mapBlockIndex))) && !v.FlushOk()
    ensures first == AbortedAfterFlush ==> (second == Switched <==> w.FlushOk())
    ensures cs.Valid() && (first != AbortedAfterFlush ==> second == first)
    ensures first == AbortedAfterFlush && second == Switched ==> cs.pindexBest == a && !NextOk(cs.mapBlockIndex, a)
  {
    hide CoinsViewCache.Below, CoinsViewCache.Under, CoinsViewCache.Top, TreeOk, NextOk, SwitchMendsLinks;
    ghost var bad;
    first, bad := cs.SetBestChain(a, v);
    second := first;
    if first == AbortedAfterFlush {
      LinksLeftBehind(g, a);
      second, bad := cs.SetBestChain(a, w);
    }
  }
}
