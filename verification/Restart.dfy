/** Starting over: the chain state as it is rebuilt from the database and the block index. */
module Restart {
  import opened Wrappers
  import opened BlockIndex
  import opened CoinsView
  import opened ForkSearch
  import opened Chain

  lemma SomeBlock(s: set<CBlockIndex>)
    requires s != {}
    ensures exists b :: b in s
  {
  }

  /** The loops over the index: the candidates are the blocks without a failure flag, and the genesis
      block is the one without a parent. */
  method FromIndex(index: set<CBlockIndex>) returns (valid: set<CBlockIndex>, genesis: CBlockIndex?)
    ensures valid == set b | b in index && !b.Failed()
    ensures genesis == null ==> forall b | b in index :: b.pprev != null
    ensures genesis != null ==> genesis in index && genesis.pprev == null
  {
    valid, genesis := {}, null;
    var rest := index;
    while rest != {}
      invariant rest <= index && valid == set b | b in index - rest && !b.Failed()
      invariant genesis == null ==> forall b | b in index - rest :: b.pprev != null
      invariant genesis != null ==> genesis in index && genesis.pprev == null
      modifies {}
    {
      SomeBlock(rest);
      var b :| b in rest;
      if !b.Failed() { valid := valid + {b}; }
      if genesis == null && b.pprev == null { genesis := b; }
      rest := rest - {b};
    }
  }

  /** The last loop: links the blocks of the best chain, from the tip down. */
  method LinkDown(index: set<CBlockIndex>, best: CBlockIndex?)
    requires TreeOk(index) && (best != null ==> best in index) && forall b | b in index :: b.pnext == null
    modifies index`pnext
    ensures NextOk(index, best)
  {
    hide Anc, TreeOk, OnChain;
    if best == null { return; }
    InTree(index, best);
    var pindex := best;
    while pindex.pprev != null
      invariant pindex in index && pindex.Linked() && OnChain(pindex, best)
      invariant forall b | b in index :: b.pnext == if OnStretch(b, best, pindex.nHeight) then NextOf(b, best) else null
      decreases pindex.nHeight
    {
      ParentOnChain(index, pindex, best);
      SetNext(index, best, pindex.pprev, pindex);
      pindex := pindex.pprev;
    }
  }

  lemma ParentOnChain(index: set<CBlockIndex>, b: CBlockIndex, tip: CBlockIndex)
    requires TreeOk(index) && b in index && tip in index && tip.Linked() && OnChain(b, tip) && b.pprev != null
    ensures b.pprev in index && b.pprev.Linked() && OnChain(b.pprev, tip) &&
            b.pprev.nHeight + 1 == b.nHeight <= tip.nHeight
    ensures NextOf(b.pprev, tip) == b
  {
    AncPrev(tip, b.nHeight);
  }

  lemma GenesisBelow(index: set<CBlockIndex>, b: CBlockIndex)
    requires TreeOk(index) && b in index
    ensures exists g :: g in index && g.pprev == null
  {
    AncInTree(index, b, 0);
    assert Anc(b, 0).pprev == null;
  }

  /** The coin view over the database, which has been asked for its best block. */
  method OpenCoins(db: CoinsViewDB) returns (view: CoinsViewCache, best: CBlockIndex?)
    modifies db
    ensures view.Valid() && view.base == null && view.db == db && fresh(view.Repr - {db})
    ensures view.Top() == view.Under() == old(Layer(db.coins, db.best)) && best == old(db.best)
    ensures db.coins == old(db.coins) && db.best == old(db.best)
  {
    view := new CoinsViewCache.OverDatabase(db);
    best := view.GetBestBlock();
  }

  lemma BestInIndex(index: set<CBlockIndex>, view: Layer)
    requires TreeOk(index) && GoodView(index, view)
    ensures view.best != null ==> view.best in index
  {
  }

  /** `LoadBlockIndexDB`: over an index without links and a database that shows the chain of the block
      it names, the result is coherent. */
  method LoadBlockIndexDB(index: set<CBlockIndex>, db: CoinsViewDB) returns (s: ChainState)
    requires TreeOk(index) && GoodView(index, Layer(db.coins, db.best)) && forall b | b in index :: b.pnext == null
    modifies index`pnext, db
    ensures fresh(s) && s.Valid() && s.Coherent() && s.mapBlockIndex == index
    ensures s.setBlockIndexValid == set b | b in index && !b.Failed()
    ensures s.pcoinsTip.db == db && s.pcoinsTip.Top() == old(Layer(db.coins, db.best)) && s.pindexBest == old(db.best)
    ensures db.coins == old(db.coins) && db.best == old(db.best)
  {
    hide TreeOk, GoodView, NextOk, CoinsViewCache.Top, CoinsViewCache.Under;
    BestInIndex(index, Layer(db.coins, db.best));
    if db.best != null { GenesisBelow(index, db.best); }
    var valid, genesis := FromIndex(index);
    var view, best := OpenCoins(db);
    s := new ChainState.Load(view, best, index, valid, genesis);
    LinkDown(index, s.pindexBest);
  }

  /** Whatever has happened to a chain state, aborted switches included, starting over from its
      database and its block index gives a coherent one, at the block that the database names. */
  method StartOver(s: ChainState) returns (t: ChainState)
    requires s.Valid()
    modifies s.mapBlockIndex`pnext, s.pcoinsTip.db
    ensures fresh(t) && t.Valid() && t.Coherent() && t.mapBlockIndex == s.mapBlockIndex
    ensures t.setBlockIndexValid == set b | b in s.mapBlockIndex && !b.Failed()
    ensures t.pcoinsTip.db == s.pcoinsTip.db && t.pcoinsTip.Top() == old(s.pcoinsTip.Under()) &&
            t.pindexBest == old(s.pcoinsTip.Under()).best
  {
    hide TreeOk, GoodView, NextOk;
    var index := s.mapBlockIndex;
    forall b | b in index {
      b.pnext := null;
    }
    t := LoadBlockIndexDB(index, s.pcoinsTip.db);
  }
}
