/** The coins of a chain, by replaying its blocks from genesis; what that implies for money;
    and how one connected or disconnected block moves a view along the chain. */
module ChainReplay {
  import opened Wrappers
  import opened Coins
  import opened Blocks
  import opened Ledger
  import opened Money
  import opened BlockIndex
  import opened CoinsView
  import opened BlockConnect

  /** Heights for which the shift in the subsidy is defined. */
  ghost predicate Bounded(b: CBlockIndex?) {
    b != null ==> b.Linked() && b.nHeight / 100_000 < 64
  }

  /** The coins after the blocks from genesis to `b`; None if one of them does not connect.
      The genesis block adds none. */
  ghost function Replay(b: CBlockIndex?): Option<CoinMap>
    requires Bounded(b)
    decreases if b == null then 0 else b.nHeight + 1
  {
    if b == null || b.pprev == null then Some(map[]) else
      match Replay(b.pprev)
      case None => None
      case Some(m) =>
        match Ledger.ConnectBlock(m, b.block, b.nHeight)
        case None => None
        case Some(c) => Some(c.coins)
  }

  /** On every chain that connects, the coins are worth no more than all subsidies so far. */
  lemma {:induction false} ReplayMoney(b: CBlockIndex?)
    requires Bounded(b) && Replay(b).Some?
    ensures WellFormed(Replay(b).value)
    ensures 0 <= Total(Replay(b).value) <= SubsidySum(if b == null then 0 else b.nHeight)
    decreases if b == null then 0 else b.nHeight + 1
  {
    if b != null && b.pprev != null {
      ReplayMoney(b.pprev);
      var m := Replay(b.pprev).value;
      var c := Ledger.ConnectBlock(m, b.block, b.nHeight).value;
      ConnectBlockTotal(m, b.block, b.nHeight);
      ConnectBlockWellFormed(m, b.block, b.nHeight);
    }
    TotalNonnegative(Replay(b).value);
  }

  /** The money supply: strictly below `MAX_MONEY` on every chain, with room for the next
      subsidy, whatever representation a view uses for spent records. */
  lemma SupplyBelowMaxMoney(b: CBlockIndex?, coins: CoinMap)
    requires Bounded(b) && Replay(b).Some? && Shows(coins, Replay(b).value)
    ensures WellFormed(coins) && MoneyBounded(coins) && 0 <= Total(coins) < MAX_MONEY
  {
    ReplayMoney(b);
    SubsidiesBelowMaxMoney(if b == null then 0 else b.nHeight);
    TotalShows(coins, Replay(b).value);
    WellFormedShows(coins, Replay(b).value);
  }

  /** A view shows the unspent coins of the chain ending in its best block: each record is the
      one of the replay, or what that one reads back as. */
  ghost predicate Replays(view: Layer) {
    Bounded(view.best) && Replay(view.best).Some? && Shows(view.coins, Replay(view.best).value)
  }

  /** Stored undo data is what connecting the block to its parent's coins produces, read back. */
  ghost predicate UndoOk(b: CBlockIndex)
    requires Bounded(b)
    reads b`undo
  {
    b.undo.Some? ==> b.pprev != null && Replay(b.pprev).Some? && b.undo == UndoFor(Replay(b.pprev).value, b)
  }

  /** Connecting a block to a view of its parent's chain gives a view of its own chain, and
      the undo data is the same from any such view. */
  lemma ConnectReplays(view: Layer, b: CBlockIndex, env: Env)
    requires Replays(view) && Bounded(b) && b.pprev == view.best && Connects(view.coins, b, env)
    ensures b.pprev == null ==> Replays(Layer(view.coins, b))
    ensures b.pprev != null ==> Replays(Layer(Ledger.ConnectBlock(view.coins, b.block, b.nHeight).value.coins, b))
    ensures b.pprev != null ==> UndoFor(view.coins, b) == UndoFor(Replay(b.pprev).value, b)
  {
    if b.pprev != null {
      SupplyBelowMaxMoney(view.best, view.coins);
      ReplayMoney(b.pprev);
      ConnectBlockShows(view.coins, Replay(b.pprev).value, b.block, b.nHeight);
      var v, c :=
        Ledger.ConnectBlock(view.coins, b.block, b.nHeight).value,
          Ledger.ConnectBlock(Replay(b.pprev).value, b.block, b.nHeight).value;
      StoredUndosShow(v.vtxundo, c.vtxundo);
    }
  }

  /** Whether a block may be connected, whatever view its parent's chain is held in: its header, its
      own rules and its scripts pass, and replaying its chain from genesis reaches it. */
  ghost predicate Passes(b: CBlockIndex, env: Env)
    requires Bounded(b)
  {
    env.fHeader && ValidBlock(b.block) && (b.pprev == null || (env.fScripts && Replay(b).Some?))
  }

  lemma ConnectsIffPasses(view: Layer, b: CBlockIndex, env: Env)
    requires Replays(view) && Bounded(b) && b.pprev == view.best
    ensures Connects(view.coins, b, env) <==> Passes(b, env)
  {
    if b.pprev != null {
      ReplayMoney(b.pprev);
      ConnectBlockShows(view.coins, Replay(b.pprev).value, b.block, b.nHeight);
    }
  }

  /** Disconnecting the best block of a view with its stored undo data succeeds cleanly and
      gives a view of the parent's chain. */
  lemma DisconnectReplays(view: Layer, b: CBlockIndex)
    requires Replays(view) && view.best == b && b.pprev != null && UndoOk(b) && b.undo.Some?
    ensures var r := Ledger.DisconnectBlock(view.coins, b.block, b.undo.value, b.nHeight);
            r.Some? && r.value.1 && Replays(Layer(r.value.0, b.pprev))
  {
    var m := Replay(b.pprev).value;
    ReplayMoney(b.pprev);
    var c := Ledger.ConnectBlock(m, b.block, b.nHeight).value;
    StoredUndosShow(c.vtxundo, c.vtxundo);
    DisconnectInvertsConnect(m, b.block, b.nHeight, c, view.coins, b.undo.value);
  }

  /** Reorganising gives the same coins as building the new branch directly: two views of
      the same chain have the same outputs available, worth the same, in records that storing
      makes equal.  Without negative versions on the chain nothing tells them apart. */
  lemma ReplayDetermined(v: Layer, w: Layer)
    requires Replays(v) && Replays(w) && v.best == w.best
    ensures forall o: OutPoint :: Available(v.coins, o) <==> Available(w.coins, o)
    ensures forall o: OutPoint :: OutputFor(v.coins, o) == OutputFor(w.coins, o)
    ensures forall o: OutPoint | Available(v.coins, o) && Available(w.coins, o) ::
              v.coins[o.hash].StoredForm() == w.coins[o.hash].StoredForm()
    ensures NoNegativeVersion(Replay(v.best).value) ==> Same(v.coins, w.coins)
  {
    hide Shows, Replay;
    var m := Replay(v.best).value;
    forall o: OutPoint
      ensures Available(v.coins, o) <==> Available(w.coins, o)
      ensures OutputFor(v.coins, o) == OutputFor(w.coins, o)
      ensures Available(v.coins, o) && Available(w.coins, o) ==>
                v.coins[o.hash].StoredForm() == w.coins[o.hash].StoredForm()
    {
      ShowsAvailable(v.coins, m, o);
      ShowsAvailable(w.coins, m, o);
    }
    if NoNegativeVersion(m) {
      ReplayMoney(v.best);
      ExactlyShown(v.coins, m);
      ExactlyShown(w.coins, m);
    }
  }

  ghost predicate NoNegativeVersion(m: CoinMap) {
    forall id: Txid :: Live(m, id).Some? ==> m[id].nVersion >= 0
  }

  /** Without negative versions a view has the records of the replay bit for bit, and with one it
      may not: such a record, stored once, comes back changed. */
  lemma ExactlyShown(v: CoinMap, m: CoinMap)
    requires WellFormed(m)
    ensures NoNegativeVersion(m) && Shows(v, m) ==> Same(v, m)
    ensures !NoNegativeVersion(m) ==> Shows(Written(map[], m), m) && !Same(Written(map[], m), m)
  {
    if NoNegativeVersion(m) && Shows(v, m) {
      forall id: Txid ensures Live(v, id) == Live(m, id) { assert Shown(Live(v, id), Live(m, id)); }
    }
    if !NoNegativeVersion(m) {
      var id: Txid :| Live(m, id).Some? && m[id].nVersion < 0;
      assert map[] + m == m;
      WrittenShows(map[], m);
    }
  }

  /** A block that loses its version: nothing stops a transaction from having version -1. */
  const MINUS_ONE := Block([Transaction(1, -1, [OutPoint(0, NULL_OUTPUT_INDEX)], [TxOut(0, [])])])

  /** It connects, and once flushed its record has version 127; undoing it still is clean, but
      only because `RemoveOutputs` looks at the sign of the version in the block. */
  lemma MinusOneComesBackAs127()
    ensures var c := Ledger.ConnectBlock(map[], MINUS_ONE, 1);
            && c.Some?
            && c.value.coins[1].nVersion == -1
            && var v := Written(map[], c.value.coins);
               && Live(v, 1) == Some(Coins(true, [TxOut(0, [])], 1, 127))
               && Shows(v, c.value.coins) && !Same(v, c.value.coins)
               && v[1] != Record(MINUS_ONE.vtx[0], 1)
               && var r := Ledger.DisconnectBlock(v, MINUS_ONE, [], 1);
                  r.Some? && r.value.1 && Same(r.value.0, map[])
  {
    var tx := MINUS_ONE.vtx[0];
    assert tx.IsCoinBase();
    assert Value(tx.vout) == 0 by { assert tx.vout[..0] == []; }
    assert ValidBlock(MINUS_ONE);
    var c := Connected(map[1 := Record(tx, 1)], [], 0);
    assert MINUS_ONE.vtx[..0] == [];
    assert ConnectTxs(map[], MINUS_ONE.vtx, 1) == Some(c);
    assert map[] + c.coins == c.coins;
    WrittenShows(map[], c.coins);
    DisconnectInvertsConnect(map[], MINUS_ONE, 1, c, Written(map[], c.coins), []);
  }
}
