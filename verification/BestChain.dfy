/** Choosing the best chain: `ConnectBestBlock` tries candidates in order of work,
    `AddToBlockIndex` adds them, `FindBlockByHeight` walks the chain that was chosen. */
module BestChain {
  import opened Wrappers
  import opened Blocks
  import opened BlockIndex
  import opened CoinsView
  import opened ForkSearch
  import opened ChainReplay
  import opened Chain

  /** `CBlockIndexWorkComparator`: more work comes last, and for equal work the smaller hash. */
  predicate WorkLess(a: CBlockIndex, b: CBlockIndex) {
    a.nChainWork < b.nChainWork || (a.nChainWork == b.nChainWork && a.hash > b.hash)
  }

  /** `setBlockIndexValid.rbegin()`. */
  method LastCandidate(candidates: set<CBlockIndex>) returns (last: CBlockIndex)
    requires candidates != {}
    ensures last in candidates && forall c | c in candidates :: !WorkLess(last, c)
    ensures forall c | c in candidates ::
              last.nChainWork > c.nChainWork || (last.nChainWork == c.nChainWork && last.hash <= c.hash)
  {
    last :| last in candidates;
    var left := candidates - {last};
    while left != {}
      invariant last in candidates && left <= candidates
      invariant forall c | c in candidates - left :: !WorkLess(last, c)
    {
      var c :| c in left;
      ghost var before := last;
      if WorkLess(last, c) { last := c; }
      left := left - {c};
      forall x | x in candidates - left ensures !WorkLess(last, x) {
        assert x == c || !WorkLess(before, x);
      }
    }
  }

  ghost predicate MoreWork(b: CBlockIndex, best: CBlockIndex?) {
    best == null || b.nChainWork > best.nChainWork
  }

  lemma LessWork(b: CBlockIndex)
    requires b.Linked() && b.pprev != null
    ensures b.pprev.nChainWork < b.nChainWork && b.nHeight > 0
  {
  }

  /** Blocks with more work than the best one, each the parent of the one before. */
  ghost predicate Collected(index: set<CBlockIndex>, v: seq<CBlockIndex>, best: CBlockIndex?) {
    && (forall b | b in v :: b in index && MoreWork(b, best))
    && (forall i | 0 < i < |v| :: v[i] == v[i - 1].pprev)
    && forall i, j | 0 <= i < j < |v| :: v[i].nChainWork > v[j].nChainWork
  }

  lemma CollectOne(index: set<CBlockIndex>, v: seq<CBlockIndex>, b: CBlockIndex, best: CBlockIndex?)
    requires Collected(index, v, best) && b in index && MoreWork(b, best)
    requires v != [] ==> v[|v| - 1].pprev == b && b.nChainWork < v[|v| - 1].nChainWork
    ensures Collected(index, v + [b], best)
  {
  }

  /** The parent of the last one has no more work than the best block, and neither has `b`. */
  ghost predicate NoMoreBelow(last: CBlockIndex, b: CBlockIndex, best: CBlockIndex?) {
    last.pprev != null && !MoreWork(last.pprev, best) && !MoreWork(b, best)
  }

  /** Where the collected blocks may end: at a block without a parent, at one that already has a
      successor, or above one with no more work than the best block. */
  ghost predicate EndsWell(last: CBlockIndex, best: CBlockIndex?)
    reads last`pnext
  {
    last.pprev == null || last.pnext != null || !MoreWork(last.pprev, best)
  }

  /** The inner walk of `ConnectBestBlock`, from the candidate towards genesis: it stops at a
      failed block, or at the main chain with every block that has more work than the best. */
  method WalkBack(s: ChainState, pindexNewBest: CBlockIndex) returns (failed: CBlockIndex?, vAttach: seq<CBlockIndex>)
    requires s.Valid() && pindexNewBest in s.mapBlockIndex
    ensures failed != null ==>
              failed in s.mapBlockIndex && failed.Failed() && pindexNewBest.Linked() && OnChain(failed, pindexNewBest)
    ensures Collected(s.mapBlockIndex, vAttach, s.pindexBest)
    ensures failed == null ==>
              if vAttach == [] then !MoreWork(pindexNewBest, s.pindexBest) else vAttach[0] == pindexNewBest
    ensures failed == null && vAttach != [] ==> EndsWell(vAttach[|vAttach| - 1], s.pindexBest)
  {
    hide CoinsViewCache.Top, CoinsViewCache.Below, CoinsViewCache.Under, ChainState.Valid, TreeOk, Anc, OnChain,
         CBlockIndex.Linked, Collected;
    s.ValidParts();
    vAttach := [];
    NoneCollected(s.mapBlockIndex, s.pindexBest);
    InTree(s.mapBlockIndex, pindexNewBest);
    var pindexTest: CBlockIndex := pindexNewBest;
    while true
      invariant pindexTest in s.mapBlockIndex && OnChain(pindexTest, pindexNewBest)
      invariant Collected(s.mapBlockIndex, vAttach, s.pindexBest)
      invariant vAttach == [] ==>
                  pindexTest == pindexNewBest ||
                    (!MoreWork(pindexNewBest, s.pindexBest) && !MoreWork(pindexTest, s.pindexBest))
      invariant vAttach != [] ==> vAttach[0] == pindexNewBest
      invariant vAttach != [] ==> pindexTest.nChainWork < vAttach[|vAttach| - 1].nChainWork
      invariant vAttach != [] ==>
                  vAttach[|vAttach| - 1].pprev == pindexTest ||
                    NoMoreBelow(vAttach[|vAttach| - 1], pindexTest, s.pindexBest)
      decreases pindexTest.nHeight
    {
      if pindexTest.Failed() { return pindexTest, vAttach; }
      if s.pindexBest == null || pindexTest.nChainWork > s.pindexBest.nChainWork {
        CollectOne(s.mapBlockIndex, vAttach, pindexTest, s.pindexBest);
        vAttach := vAttach + [pindexTest];
      }
      if pindexTest.pprev == null || pindexTest.pnext != null { return null, vAttach; }
      OneDown(s.mapBlockIndex, pindexNewBest, pindexTest);
      pindexTest := pindexTest.pprev;
    }
  }

  lemma NoneCollected(index: set<CBlockIndex>, best: CBlockIndex?)
    ensures Collected(index, [], best)
  {
  }

  lemma OneDown(index: set<CBlockIndex>, tip: CBlockIndex, b: CBlockIndex)
    requires TreeOk(index) && tip in index && tip.Linked() && OnChain(b, tip) && b.pprev != null
    ensures b.pprev in index && OnChain(b.pprev, tip) && b.pprev.nHeight < b.nHeight &&
            b.pprev.nChainWork < b.nChainWork
  {
    hide Anc;
    StepUp(index, tip, b.nHeight);
    StepUp(index, tip, b.nHeight - 1);
    LessWork(b);
  }

  /** On the chain of `top`, strictly above `bottom`. */
  ghost predicate Above(b: CBlockIndex, bottom: CBlockIndex, top: CBlockIndex)
    requires top.Linked()
  {
    bottom.nHeight < b.nHeight && OnChain(b, top)
  }

  /** Marks every block from the candidate down to just above the failed one, the candidate
      itself first: it stops being a candidate. */
  method MarkFailedChildren(s: ChainState, pindexNewBest: CBlockIndex, pindexTest: CBlockIndex)
    requires s.Valid() && pindexNewBest in s.mapBlockIndex
    requires pindexNewBest.Linked() && OnChain(pindexTest, pindexNewBest) && pindexTest != pindexNewBest
    modifies s`setBlockIndexValid, s.mapBlockIndex`failedChild
    ensures s.Valid() && (old(s.Coherent()) ==> s.Coherent())
    ensures forall b | b in s.mapBlockIndex ::
              b.failedChild == (old(b.failedChild) || Above(b, pindexTest, pindexNewBest))
    ensures forall b :: b in s.setBlockIndexValid <==>
              b in old(s.setBlockIndexValid) && !Above(b, pindexTest, pindexNewBest)
    ensures pindexNewBest !in s.setBlockIndexValid && s.setBlockIndexValid <= old(s.setBlockIndexValid)
  {
    hide TreeOk, Anc, GoodView, GoodViews, NextOk, ChainState.BestOk, ChainState.GenesisOk, CoinsViewCache.Top,
         CoinsViewCache.Below, CoinsViewCache.Under;
    InTree(s.mapBlockIndex, pindexNewBest);
    var pindexFailed: CBlockIndex := pindexNewBest;
    while pindexTest != pindexFailed
      invariant pindexFailed in s.mapBlockIndex && OnChain(pindexFailed, pindexNewBest) &&
                pindexFailed.nHeight >= pindexTest.nHeight
      invariant s.CandidatesOk()
      invariant forall b | b in s.mapBlockIndex ::
                  b.failedChild == (old(b.failedChild) || Above(b, pindexFailed, pindexNewBest))
      invariant forall b :: b in s.setBlockIndexValid <==>
                  b in old(s.setBlockIndexValid) && !Above(b, pindexFailed, pindexNewBest)
      decreases pindexFailed.nHeight
    {
      pindexFailed.failedChild := true;
      s.setBlockIndexValid := s.setBlockIndexValid - {pindexFailed};
      StepUp(s.mapBlockIndex, pindexNewBest, pindexFailed.nHeight);
      StepUp(s.mapBlockIndex, pindexNewBest, pindexFailed.nHeight - 1);
      pindexFailed := pindexFailed.pprev;
    }
  }

  /** Switching to each block of a list in turn goes through: the first switch does, from the old tip,
      and each of the others only has to connect one more block. */
  ghost predicate AttachesAll(index: set<CBlockIndex>, tip: CBlockIndex?, v: seq<CBlockIndex>, worlds: nat -> World,
                              had: set<CBlockIndex>) {
    v != [] ==>
      && Prepares(index, tip, v[0], worlds(0), had) && worlds(0).FlushOk()
      && forall i | 0 < i < |v| :: CanJoin(v[i], worlds(i), had) && worlds(i).FlushOk()
  }

  ghost predicate Follows(v: seq<CBlockIndex>) {
    forall i | 0 < i < |v| :: v[i].pprev == v[i - 1]
  }

  /** From a block to its child nothing is left and only the child joins. */
  lemma OneMore(index: set<CBlockIndex>, a: CBlockIndex, b: CBlockIndex, w: World, had: set<CBlockIndex>)
    requires TreeOk(index) && a in index && b in index && b.pprev == a
    ensures Prepares(index, a, b, w, had) <==> CanJoin(b, w, had)
    ensures forall x | x in index :: Joins(x, a, b) <==> x == b
  {
    hide CanJoin, World.ReadBack, TreeOk;
    InTree(index, a);
    InTree(index, b);
    forall x | x in index ensures (Joins(x, a, b) <==> x == b) && !Leaves(x, a, b) { OnlyChild(a, b, x); }
  }

  lemma OnlyChild(a: CBlockIndex, b: CBlockIndex, x: CBlockIndex)
    requires a.Linked() && b.Linked() && b.pprev == a
    ensures AlreadyOn(x, b) <==> x == b || AlreadyOn(x, a)
    ensures !AlreadyOn(b, a)
  {
  }

  lemma HadOnly(b: CBlockIndex, w: World, had: set<CBlockIndex>, has: set<CBlockIndex>)
    requires b in had <==> b in has
    ensures CanJoin(b, w, had) <==> CanJoin(b, w, has)
  {
  }

  /** Switch i goes through exactly when the list up to it does. */
  lemma SwitchCounts(index: set<CBlockIndex>, tip: CBlockIndex?, v: seq<CBlockIndex>, worlds: nat -> World,
                     had: set<CBlockIndex>, has: set<CBlockIndex>, i: nat)
    requires TreeOk(index) && (forall b | b in v :: b in index) && Follows(v) && i < |v|
    requires (v[i] in had <==> v[i] in has) && (i == 0 ==> had == has)
    requires i > 0 ==> AttachesAll(index, tip, v[..i], worlds, had)
    ensures var goes := Prepares(index, if i == 0 then tip else v[i - 1], v[i], worlds(i), has) && worlds(i).FlushOk();
            && (AttachesAll(index, tip, v[..i + 1], worlds, had) <==> goes)
            && (!goes ==> !AttachesAll(index, tip, v, worlds, had))
  {
    hide TreeOk, Prepares, CanJoin, World.FlushOk;
    HadOnly(v[i], worlds(i), had, has);
    if i > 0 { OneMore(index, v[i - 1], v[i], worlds(i), has); }
  }

  /** What one switch has done to the undo data that later ones ask for. */
  lemma LaterUndo(index: set<CBlockIndex>, tip: CBlockIndex?, v: seq<CBlockIndex>, i: nat, k: nat)
    requires TreeOk(index) && (forall b | b in v :: b in index) && Follows(v) && i < k < |v|
    ensures !Joins(v[k], tip, v[i])
    decreases k
  {
    hide TreeOk;
    InTree(index, v[k]);
    InTree(index, v[i]);
    HeightGrows(index, v, i, k);
  }

  lemma {:induction false} HeightGrows(index: set<CBlockIndex>, v: seq<CBlockIndex>, i: nat, k: nat)
    requires TreeOk(index) && (forall b | b in v :: b in index) && Follows(v) && i < k < |v|
    ensures v[i].nHeight < v[k].nHeight
    decreases k
  {
    hide TreeOk;
    InTree(index, v[k]);
    if i < k - 1 { HeightGrows(index, v, i, k - 1); }
  }

  /** Switches to each collected block in turn, least work first.  It succeeds exactly when each of the
      switches goes through, and only a block found invalid is blamed. */
  method AttachAll(s: ChainState, vAttach: seq<CBlockIndex>, worlds: nat -> World)
    returns (ok: bool, fAhead: bool, ghost n: nat)
    requires s.Valid() && (forall b | b in vAttach :: b in s.mapBlockIndex) && Follows(vAttach)
    modifies s, s.mapBlockIndex, s.pcoinsTip.Repr
    ensures s.Valid() && s.mapBlockIndex == old(s.mapBlockIndex)
    ensures ok <==> AttachesAll(s.mapBlockIndex, old(s.pcoinsTip.Top()).best, vAttach, worlds,
                                old(WithUndo(s.mapBlockIndex)))
    ensures ok ==> !fAhead && s.setBlockIndexValid == old(s.setBlockIndexValid)
    ensures ok ==> s.pindexBest == if vAttach == [] then old(s.pindexBest) else vAttach[|vAttach| - 1]
    ensures s.pindexBest == old(s.pindexBest) || (s.pindexBest in vAttach)
    ensures !fAhead && old(s.Coherent()) ==> s.Coherent()
    ensures forall b | b in s.mapBlockIndex :: b.failedChild == old(b.failedChild)
    ensures forall b | b in s.mapBlockIndex :: b.failedValid ==> old(b.failedValid) || FoundInvalid(b, worlds(n))
    ensures forall b :: b in s.setBlockIndexValid <==>
              b in old(s.setBlockIndexValid) && (old(b.failedValid) || !b.failedValid)
  {
    hide ChainState.Valid, ChainState.Coherent, CoinsViewCache.Top, CoinsViewCache.Below, CoinsViewCache.Under, Joins,
         StopsAt, Blames, Prepares, FoundInvalid, CanJoin, World.FlushOk, TreeOk;
    fAhead, n := false, 0;
    s.ValidParts();
    ghost var had, tip := WithUndo(s.mapBlockIndex), s.pcoinsTip.Top().best;
    for i := 0 to |vAttach|
      invariant s.Valid() && s.mapBlockIndex == old(s.mapBlockIndex) &&
                s.setBlockIndexValid == old(s.setBlockIndexValid)
      invariant s.pindexBest == if i == 0 then old(s.pindexBest) else vAttach[i - 1]
      invariant s.pcoinsTip.Top().best == if i == 0 then tip else vAttach[i - 1]
      invariant old(s.Coherent()) ==> s.Coherent()
      invariant if i == 0 then WithUndo(s.mapBlockIndex) == had
                else AttachesAll(s.mapBlockIndex, tip, vAttach[..i], worlds, had)
      invariant forall k | i <= k < |vAttach| :: vAttach[k] in had <==> vAttach[k].undo.Some?
      invariant forall b | b in s.mapBlockIndex ::
                  b.failedChild == old(b.failedChild) && b.failedValid == old(b.failedValid)
    {
      n := i;
      s.ValidParts();
      ghost var before, has := s.pcoinsTip.Top().best, WithUndo(s.mapBlockIndex);
      var r, bad := s.SetBestChain(vAttach[i], worlds(i));
      SwitchCounts(s.mapBlockIndex, tip, vAttach, worlds, had, has, i);
      if r != Switched {
        return false, r == AbortedAfterFlush, n;
      }
      forall k | i < k < |vAttach| ensures !Joins(vAttach[k], before, vAttach[i]) {
        LaterUndo(s.mapBlockIndex, before, vAttach, i, k);
      }
    }
    assert vAttach[..|vAttach|] == vAttach;
    ok := true;
  }

  /** Every candidate has at most the work of the best block. */
  ghost predicate BestIsBest(s: ChainState)
    reads s
  {
    forall c | c in s.setBlockIndexValid :: s.pindexBest != null && c.nChainWork <= s.pindexBest.nChainWork
  }

  ghost predicate NoLessWork(before: CBlockIndex?, after: CBlockIndex?) {
    before != null ==> after != null && after.nChainWork >= before.nChainWork
  }

  /** A list of blocks to switch to: each has more work than the best block, each follows the one
      before, and the last is a candidate that no other one exceeds. */
  ghost predicate LeadsTo(index: set<CBlockIndex>, best: CBlockIndex?, candidates: set<CBlockIndex>,
                          v: seq<CBlockIndex>) {
    && Follows(v) && (forall b | b in v :: b in index && MoreWork(b, best))
    && (v != [] ==> v[|v| - 1] in candidates && forall c | c in candidates :: !WorkLess(v[|v| - 1], c))
    && (v == [] ==> forall c | c in candidates :: !MoreWork(c, best))
  }

  ghost function FailedBlocks(index: set<CBlockIndex>): set<CBlockIndex>
    reads index`failedValid, index`failedChild
  {
    set b | b in index && b.Failed()
  }

  ghost function Unmarked(candidates: set<CBlockIndex>): set<CBlockIndex>
    reads candidates`failedChild
  {
    set c | c in candidates && !c.failedChild
  }

  /** A block above one of the given blocks. */
  ghost predicate AboveOne(b: CBlockIndex, failed: set<CBlockIndex>) {
    exists f :: f in failed && f != b && AlreadyOn(f, b)
  }

  /** `ConnectBestBlock`.  It ends because no candidate carries a failure flag, so that every
      pass that finds a failed block removes at least the candidate it started from.  It succeeds
      exactly when the switches to `tried` go through, the blocks on the way to a candidate that none
      of the unfailed ones exceeds; then no candidate has more work than the best block.  The best work
      never falls, whatever the outcome.  Candidates are lost by failing only, and a block fails only
      when it is found invalid or is above one that had failed.  `fAhead` tells of a switch aborted
      after its flush. */
  method ConnectBestBlock(s: ChainState, worlds: nat -> World)
    returns (ok: bool, ghost fAhead: bool, ghost tried: seq<CBlockIndex>, ghost n: nat)
    requires s.Valid()
    modifies s, s.mapBlockIndex, s.pcoinsTip.Repr
    ensures s.Valid() && s.mapBlockIndex == old(s.mapBlockIndex)
    ensures ok <==> AttachesAll(s.mapBlockIndex, old(s.pcoinsTip.Top()).best, tried, worlds,
                                old(WithUndo(s.mapBlockIndex)))
    ensures LeadsTo(s.mapBlockIndex, old(s.pindexBest), Unmarked(old(s.setBlockIndexValid)), tried)
    ensures tried != [] ==> tried[0] in old(s.mapBlockIndex) && old(EndsWell(tried[0], s.pindexBest))
    ensures ok ==> BestIsBest(s) && s.pindexBest == if tried == [] then old(s.pindexBest) else tried[|tried| - 1]
    ensures NoLessWork(old(s.pindexBest), s.pindexBest)
    ensures ok ==> !fAhead
    ensures !fAhead && old(s.Coherent()) ==> s.Coherent()
    ensures forall b | b in s.mapBlockIndex ::
              b in s.setBlockIndexValid <==> b in old(s.setBlockIndexValid) && !b.Failed()
    ensures forall b | b in s.mapBlockIndex :: b.failedValid ==> old(b.failedValid) || FoundInvalid(b, worlds(n))
    ensures forall b | b in s.mapBlockIndex ::
              b.failedChild ==>
                b in old(FailedBlocks(s.mapBlockIndex)) || AboveOne(b, old(FailedBlocks(s.mapBlockIndex)))
  {
    hide CoinsViewCache.Top, CoinsViewCache.Below, CoinsViewCache.Under, ChainState.Valid, ChainState.Coherent,
         GoodView, TreeOk, OnChain, CBlockIndex.Linked, AttachesAll, AboveOne, FoundInvalid, LeadsTo,
         BestIsBest, WithUndo, Unmarked, ChildrenOk, FailedBlocks, WorkLess, MoreWork, EndsWell;
    fAhead, tried, n := false, [], 0;
    s.ValidParts();
    StartFlags(s.mapBlockIndex, s.setBlockIndexValid);
    ghost var failedBefore, candidates := FailedBlocks(s.mapBlockIndex), s.setBlockIndexValid;
    ghost var tip, had := s.pcoinsTip.Top().best, WithUndo(s.mapBlockIndex);
    while true
      invariant s.Valid() && s.mapBlockIndex == old(s.mapBlockIndex) && s.setBlockIndexValid <= candidates
      invariant s.pindexBest == old(s.pindexBest) && s.pcoinsTip.Top().best == tip
      invariant old(s.Coherent()) ==> s.Coherent()
      invariant WithUndo(s.mapBlockIndex) == had && s.setBlockIndexValid == Unmarked(candidates)
      invariant forall b | b in s.mapBlockIndex :: b.failedValid == old(b.failedValid) && b.pnext == old(b.pnext)
      invariant ChildrenOk(s.mapBlockIndex, failedBefore)
      decreases s.setBlockIndexValid
    {
      Flags(s.mapBlockIndex, candidates, failedBefore);
      var pindexNewBest := NextCandidate(s);
      if pindexNewBest == null {
        NowhereToGo(s, tip, worlds, had);
        return true, false, [], 0;
      }
      var failed, vAttach := WalkBack(s, pindexNewBest);
      if failed == null {
        ok, fAhead, tried, n := Attach(s, pindexNewBest, vAttach, worlds);
        return;
      }
      MarkPass(s, pindexNewBest, failed, candidates, failedBefore);
    }
  }

  /** The candidate to try next, if it is not as good as the best block already. */
  method NextCandidate(s: ChainState) returns (b: CBlockIndex?)
    ensures b == null ==> forall c | c in s.setBlockIndexValid :: !MoreWork(c, s.pindexBest)
    ensures b != null ==> b in s.setBlockIndexValid && forall c | c in s.setBlockIndexValid :: !WorkLess(b, c)
  {
    if s.setBlockIndexValid == {} { return null; }
    var last := LastCandidate(s.setBlockIndexValid);
    if last == s.pindexBest || (s.pindexBest != null && last.nChainWork == s.pindexBest.nChainWork) { return null; }
    b := last;
  }

  /** Every block marked as a failed child had failed before or is above one that had. */
  ghost predicate ChildrenOk(index: set<CBlockIndex>, failedBefore: set<CBlockIndex>)
    reads index`failedChild
  {
    forall b | b in index :: b.failedChild ==> b in failedBefore || AboveOne(b, failedBefore)
  }

  /** A pass that finds a failed block. */
  method MarkPass(s: ChainState, pindexNewBest: CBlockIndex, failed: CBlockIndex, ghost candidates: set<CBlockIndex>,
                  ghost failedBefore: set<CBlockIndex>)
    requires s.Valid() && pindexNewBest in s.setBlockIndexValid && failed in s.mapBlockIndex
    requires pindexNewBest.Linked() && OnChain(failed, pindexNewBest) && failed.Failed()
    requires s.setBlockIndexValid == Unmarked(candidates) && ChildrenOk(s.mapBlockIndex, failedBefore)
    requires failed.failedValid ==> failed in failedBefore
    modifies s`setBlockIndexValid, s.mapBlockIndex`failedChild
    ensures s.Valid() && (old(s.Coherent()) ==> s.Coherent()) && s.pcoinsTip.Stack() == old(s.pcoinsTip.Stack())
    ensures s.setBlockIndexValid == Unmarked(candidates) && ChildrenOk(s.mapBlockIndex, failedBefore)
    ensures s.setBlockIndexValid < old(s.setBlockIndexValid)
  {
    hide CoinsViewCache.Top, CoinsViewCache.Below, CoinsViewCache.Under, TreeOk, OnChain, CBlockIndex.Linked, AboveOne,
         GoodView, NextOk;
    MarkFailedChildren(s, pindexNewBest, failed);
    forall b | b in s.mapBlockIndex && Above(b, failed, pindexNewBest) ensures AboveOne(b, failedBefore) {
      MarkReason(b, failed, pindexNewBest, failedBefore);
    }
  }

  lemma Flags(index: set<CBlockIndex>, candidates: set<CBlockIndex>, failedBefore: set<CBlockIndex>)
    requires ChildrenOk(index, failedBefore)
    ensures forall b | b in index :: b.failedChild ==> b in failedBefore || AboveOne(b, failedBefore)
    ensures forall b :: b in Unmarked(candidates) <==> b in candidates && !b.failedChild
  {
  }

  lemma StartFlags(index: set<CBlockIndex>, candidates: set<CBlockIndex>)
    requires forall b | b in candidates :: b in index
    ensures ChildrenOk(index, FailedBlocks(index))
    ensures forall b | b in index :: b in FailedBlocks(index) <==> b.Failed()
    ensures (forall c | c in candidates :: !c.Failed()) ==> Unmarked(candidates) == candidates
  {
  }

  lemma MarkReason(b: CBlockIndex, failed: CBlockIndex, top: CBlockIndex, failedBefore: set<CBlockIndex>)
    requires top.Linked() && Above(b, failed, top) && OnChain(failed, top)
    requires failed in failedBefore || AboveOne(failed, failedBefore)
    ensures AboveOne(b, failedBefore)
  {
    AncAnc(top, b.nHeight, failed.nHeight);
    assert AlreadyOn(failed, b) && failed != b;
    if failed !in failedBefore {
      var f :| f in failedBefore && f != failed && AlreadyOn(f, failed);
      OnChainTransitive(f, failed, b);
    }
  }

  /** The end of a run with nothing to switch to. */
  lemma NowhereToGo(s: ChainState, tip: CBlockIndex?, worlds: nat -> World, had: set<CBlockIndex>)
    requires forall c | c in s.setBlockIndexValid :: !MoreWork(c, s.pindexBest)
    ensures BestIsBest(s) && AttachesAll(s.mapBlockIndex, tip, [], worlds, had)
    ensures LeadsTo(s.mapBlockIndex, s.pindexBest, s.setBlockIndexValid, [])
  {
  }

  /** The successful end of a pass. */
  method Attach(s: ChainState, pindexNewBest: CBlockIndex, vAttach: seq<CBlockIndex>, worlds: nat -> World)
    returns (ok: bool, fAhead: bool, ghost tried: seq<CBlockIndex>, ghost n: nat)
    requires s.Valid() && pindexNewBest in s.setBlockIndexValid &&
             forall c | c in s.setBlockIndexValid :: !WorkLess(pindexNewBest, c)
    requires forall b | b in vAttach :: b in s.mapBlockIndex && MoreWork(b, s.pindexBest)
    requires forall i | 0 < i < |vAttach| :: vAttach[i] == vAttach[i - 1].pprev
    requires if vAttach == [] then !MoreWork(pindexNewBest, s.pindexBest) else vAttach[0] == pindexNewBest
    requires vAttach != [] ==> EndsWell(vAttach[|vAttach| - 1], s.pindexBest)
    modifies s, s.mapBlockIndex, s.pcoinsTip.Repr
    ensures s.Valid() && s.mapBlockIndex == old(s.mapBlockIndex)
    ensures ok <==> AttachesAll(s.mapBlockIndex, old(s.pcoinsTip.Top()).best, tried, worlds,
                                old(WithUndo(s.mapBlockIndex)))
    ensures LeadsTo(s.mapBlockIndex, old(s.pindexBest), old(s.setBlockIndexValid), tried)
    ensures tried != [] ==> tried[0] in old(s.mapBlockIndex) && old(EndsWell(tried[0], s.pindexBest))
    ensures ok ==> BestIsBest(s) && s.pindexBest == if tried == [] then old(s.pindexBest) else tried[|tried| - 1]
    ensures ok ==> !fAhead
    ensures NoLessWork(old(s.pindexBest), s.pindexBest)
    ensures !fAhead && old(s.Coherent()) ==> s.Coherent()
    ensures forall b | b in s.mapBlockIndex :: b.failedChild == old(b.failedChild)
    ensures forall b | b in s.mapBlockIndex :: b.failedValid ==> old(b.failedValid) || FoundInvalid(b, worlds(n))
    ensures forall b :: b in s.setBlockIndexValid <==>
              b in old(s.setBlockIndexValid) && (old(b.failedValid) || !b.failedValid)
  {
    hide CoinsViewCache.Top, CoinsViewCache.Below, CoinsViewCache.Under, ChainState.Valid, ChainState.Coherent,
         AttachesAll, FoundInvalid, WithUndo;
    var forward := Reversed(vAttach);
    tried := forward;
    assert forall b | b in tried :: b in vAttach;
    ok, fAhead, n := AttachAll(s, forward, worlds);
  }

  // ---------- walking the main chain ----------

  /** `IsInMainChain`: while the links are coherent, a block has a successor or is the best
      block exactly when it is on the best block's chain. */
  lemma InMainChainIff(s: ChainState, b: CBlockIndex)
    requires s.Valid() && s.Coherent() && b in s.mapBlockIndex && s.pindexBest != null
    ensures b.pnext != null || b == s.pindexBest <==> OnChain(b, s.pindexBest)
  {
  }

  /** The two walks of `FindBlockByHeight`; at most one of them takes a step. */
  method WalkTo(s: ChainState, start: CBlockIndex, nHeight: int) returns (pindex: CBlockIndex)
    requires s.Valid() && s.Coherent() && s.pindexBest != null && 0 <= nHeight <= s.pindexBest.nHeight
    requires OnChain(start, s.pindexBest)
    ensures pindex == Anc(s.pindexBest, nHeight)
  {
    hide CoinsViewCache.Top, CoinsViewCache.Below, CoinsViewCache.Under, GoodView, ChainState.CandidatesOk,
         ChainState.RememberedOk, TreeOk, Anc;
    InTree(s.mapBlockIndex, s.pindexBest);
    pindex := start;
    while pindex.nHeight > nHeight
      invariant OnChain(pindex, s.pindexBest)
      decreases pindex.nHeight
    {
      StepUp(s.mapBlockIndex, s.pindexBest, pindex.nHeight);
      AncOnChain(s.pindexBest, pindex.nHeight - 1);
      pindex := pindex.pprev;
    }
    while pindex.nHeight < nHeight
      invariant OnChain(pindex, s.pindexBest) && pindex.nHeight <= nHeight
      decreases nHeight - pindex.nHeight
    {
      StepUp(s.mapBlockIndex, s.pindexBest, pindex.nHeight);
      StepUp(s.mapBlockIndex, s.pindexBest, pindex.nHeight + 1);
      AncOnChain(s.pindexBest, pindex.nHeight + 1);
      pindex := pindex.pnext;
    }
  }

  /** `FindBlockByHeight`: starts from genesis, the best block or the block found last, and
      walks to the only main-chain block of the given height, whichever way it lies. */
  method FindBlockByHeight(s: ChainState, nHeight: int) returns (pindex: CBlockIndex)
    requires s.Valid() && s.Coherent() && s.pindexBest != null && 0 <= nHeight <= s.pindexBest.nHeight
    modifies s`pblockindexFBBHLast
    ensures s.Valid() && s.Coherent() && pindex == s.pblockindexFBBHLast
    ensures pindex == Anc(s.pindexBest, nHeight)
  {
    hide CoinsViewCache.Top, CoinsViewCache.Below, CoinsViewCache.Under, GoodView, ChainState.CandidatesOk, TreeOk, Anc;
    StartOnChain(s);
    pindex := if nHeight < s.nBestHeight / 2 then s.pindexGenesisBlock else s.pindexBest;
    if s.pblockindexFBBHLast != null && Abs(nHeight - pindex.nHeight) > Abs(nHeight - s.pblockindexFBBHLast.nHeight) {
      pindex := s.pblockindexFBBHLast;
    }
    pindex := WalkTo(s, pindex, nHeight);
    s.pblockindexFBBHLast := pindex;
  }

  function Abs(x: int): nat { if x < 0 then -x else x }

  lemma StartOnChain(s: ChainState)
    requires s.Valid() && s.pindexBest != null
    ensures s.pindexBest.Linked() && OnChain(s.pindexBest, s.pindexBest)
    ensures s.pindexGenesisBlock != null && OnChain(s.pindexGenesisBlock, s.pindexBest)
  {
    InTree(s.mapBlockIndex, s.pindexBest);
    InTree(s.mapBlockIndex, s.pindexGenesisBlock);
    OneGenesis(s.mapBlockIndex, s.pindexBest, s.pindexGenesisBlock);
  }

  // ---------- adding a block ----------

  /** `AddToBlockIndex`: the new block becomes a candidate, then the best chain is chosen.  Writing
      the entry beforehand and syncing the index afterwards may each fail.  It succeeds exactly when the
      block is new, both are done, and the switches to the chain chosen go through. */
  method AddToBlockIndex(s: ChainState, hash: nat, pprev: CBlockIndex?, block: Block, nBlockWork: nat, nTime: uint32,
                         nBits: uint32, fIndexWritten: bool, fSynced: bool, worlds: nat -> World)
    returns (ok: bool, ghost fAhead: bool, ghost tried: seq<CBlockIndex>)
    requires s.Valid() && nBlockWork > 0
    requires if pprev == null then s.mapBlockIndex == {}
             else pprev in s.mapBlockIndex && (pprev.nHeight + 1) / 100_000 < 64
    modifies s, s.mapBlockIndex, s.pcoinsTip.Repr
    ensures s.Valid() && NoLessWork(old(s.pindexBest), s.pindexBest)
    ensures ok ==> BestIsBest(s) && !fAhead &&
                   s.pindexBest == if tried == [] then old(s.pindexBest) else tried[|tried| - 1]
    ensures ok <==>
              && (forall b | b in old(s.mapBlockIndex) :: b.hash != hash) && fIndexWritten && fSynced
              && AttachesAll(s.mapBlockIndex, old(s.pcoinsTip.Top()).best, tried, worlds,
                             old(WithUndo(s.mapBlockIndex)))
    ensures fIndexWritten && (forall b | b in old(s.mapBlockIndex) :: b.hash != hash) ==>
              exists b | b in s.mapBlockIndex :: s.mapBlockIndex == old(s.mapBlockIndex) + {b} &&
                LeadsTo(s.mapBlockIndex, old(s.pindexBest), Unmarked(old(s.setBlockIndexValid) + {b}), tried)
    ensures !fIndexWritten ==> s.pindexBest == old(s.pindexBest) && s.pcoinsTip.Stack() == old(s.pcoinsTip.Stack())
    ensures !fAhead && old(s.Coherent()) ==> s.Coherent()
    ensures (exists b | b in old(s.mapBlockIndex) :: b.hash == hash) ==>
              !ok && s.mapBlockIndex == old(s.mapBlockIndex) && s.pindexBest == old(s.pindexBest)
    ensures (forall b | b in old(s.mapBlockIndex) :: b.hash != hash) ==>
              exists b | b in s.mapBlockIndex ::
                && fresh(b) && b.hash == hash && b.pprev == pprev && b.block == block
                && b.nHeight == (if pprev == null then 0 else pprev.nHeight + 1)
                && b.nChainWork == nBlockWork + (if pprev == null then 0 else pprev.nChainWork)
                && s.mapBlockIndex == old(s.mapBlockIndex) + {b}
  {
    hide CoinsViewCache.Top, CoinsViewCache.Below, CoinsViewCache.Under, ChainState.Valid, ChainState.Coherent,
         AttachesAll, LeadsTo, FoundInvalid, AboveOne;
    fAhead, tried := false, [];
    if exists b | b in s.mapBlockIndex :: b.hash == hash { return false, false, []; }
    var pindexNew := InsertBlock(s, hash, pprev, block, nBlockWork, nTime, nBits);
    if !fIndexWritten { return false, false, []; }
    ghost var n;
    assert WithUndo(s.mapBlockIndex) == old(WithUndo(s.mapBlockIndex));
    ok, fAhead, tried, n := ConnectBestBlock(s, worlds);
    ok := ok && fSynced;
  }

  /** The part of `AddToBlockIndex` before the best chain is chosen. */
  method InsertBlock(s: ChainState, hash: nat, pprev: CBlockIndex?, block: Block, nBlockWork: nat, nTime: uint32,
                     nBits: uint32)
    returns (pindexNew: CBlockIndex)
    requires s.Valid() && nBlockWork > 0
    requires if pprev == null then s.mapBlockIndex == {}
             else pprev in s.mapBlockIndex && (pprev.nHeight + 1) / 100_000 < 64
    modifies s`mapBlockIndex, s`setBlockIndexValid
    ensures fresh(pindexNew) && pindexNew.hash == hash && pindexNew.pprev == pprev && pindexNew.block == block
    ensures pindexNew.nHeight == (if pprev == null then 0 else pprev.nHeight + 1)
    ensures pindexNew.nChainWork == nBlockWork + if pprev == null then 0 else pprev.nChainWork
    ensures pindexNew.undo == None && s.pcoinsTip.Top() == old(s.pcoinsTip.Top())
    ensures s.mapBlockIndex == old(s.mapBlockIndex) + {pindexNew} &&
            s.setBlockIndexValid == old(s.setBlockIndexValid) + {pindexNew}
    ensures s.Valid() && (old(s.Coherent()) ==> s.Coherent()) && s.pcoinsTip.Stack() == old(s.pcoinsTip.Stack())
  {
    hide CoinsViewCache.Top, CoinsViewCache.Below, CoinsViewCache.Under, GoodView, GoodViews, NextOk, TreeOk,
         ChainState.Valid;
    s.ValidParts();
    if pprev != null { InTree(s.mapBlockIndex, pprev); }
    pindexNew := new CBlockIndex(hash, pprev, block, nBlockWork, nTime, nBits);
    GoodViewsGrow(s.mapBlockIndex, pindexNew, s.pcoinsTip.Stack());
    if s.BestOk() { NextGrows(s.mapBlockIndex, pindexNew, s.pindexBest); }
    s.mapBlockIndex := s.mapBlockIndex + {pindexNew};
    s.setBlockIndexValid := s.setBlockIndexValid + {pindexNew};
    s.ValidParts();
  }

  ghost predicate NewLeaf(index: set<CBlockIndex>, b: CBlockIndex)
    reads b
  {
    && b !in index && b.Linked() && b.nHeight / 100_000 < 64 && b.undo == None && b.pnext == null
    && if b.pprev == null then index == {} else b.pprev in index
  }

  /** A new leaf keeps the tree a tree and is on nobody's chain yet. */
  lemma TreeGrows(index: set<CBlockIndex>, b: CBlockIndex, tip: CBlockIndex?)
    requires TreeOk(index) && NewLeaf(index, b) && (tip != null ==> tip in index)
    ensures TreeOk(index + {b})
    ensures tip != null ==> !OnChain(b, tip)
  {
    if tip != null && b.nHeight <= tip.nHeight { AncInTree(index, tip, b.nHeight); }
  }

  lemma GoodViewGrows(index: set<CBlockIndex>, b: CBlockIndex, view: Layer)
    requires TreeOk(index) && NewLeaf(index, b) && GoodView(index, view)
    ensures TreeOk(index + {b}) && GoodView(index + {b}, view)
  {
    hide Replays, Anc, OnChain;
    TreeGrows(index, b, view.best);
    assert NeedsUndo(index + {b}, view.best) == NeedsUndo(index, view.best);
    assert WithUndo(index + {b}) == WithUndo(index);
  }

  lemma GoodViewsGrow(index: set<CBlockIndex>, b: CBlockIndex, views: seq<Layer>)
    requires TreeOk(index) && NewLeaf(index, b) && GoodViews(index, views)
    ensures TreeOk(index + {b}) && GoodViews(index + {b}, views)
  {
    hide GoodView;
    TreeGrows(index, b, null);
    forall i | 0 <= i < |views| ensures GoodView(index + {b}, views[i]) { GoodViewGrows(index, b, views[i]); }
  }

  lemma NextGrows(index: set<CBlockIndex>, b: CBlockIndex, best: CBlockIndex?)
    requires TreeOk(index) && NewLeaf(index, b) && (best != null ==> best in index)
    ensures TreeOk(index + {b}) && (NextOk(index, best) ==> NextOk(index + {b}, best))
  {
    TreeGrows(index, b, best);
  }
}
