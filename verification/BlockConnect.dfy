/** `ConnectBlock`, `DisconnectBlock` and their helpers, working in place on a coin view.
    Sums of money are 64-bit here; that none overflows is part of what is verified. */
module BlockConnect {
  import opened Wrappers
  import opened Coins
  import opened Blocks
  import opened Ledger
  import opened Money
  import opened BlockIndex
  import opened CoinsView

  /** Verdicts reached outside this model: the other tests of `CheckBlock`, scripts and
      signature counts, and the writes of undo data and block index. */
  datatype Env = Env(fLockLimit: bool, fHeader: bool, fScripts: bool, fUndoWritten: bool, fIndexWritten: bool) {
    predicate AllPass() { fLockLimit && fHeader && fScripts && fUndoWritten && fIndexWritten }
  }

  /** `Invalid` blames the block; `Error` and `Abort` do not. */
  datatype Outcome = Ok | Invalid | Error | Abort

  /** The money in a reachable view, with room for one more subsidy. */
  ghost predicate MoneyBounded(m: CoinMap) {
    Total(m) <= MAX_MONEY - 500 * COIN
  }

  method HaveInputs(view: CoinsViewCache, tx: Transaction) returns (have: bool)
    requires view.Valid()
    modifies view.Repr
    ensures view.Below() == old(view.Below()) && view.Top() == old(view.Top())
    ensures have <==> Ledger.HaveInputs(view.Top().coins, tx)
  {
    hide CoinsViewCache.Top, CoinsViewCache.Below, CoinsViewCache.Under;
    if !tx.IsCoinBase() {
      for i := 0 to |tx.vin|
        invariant view.Below() == old(view.Below()) && view.Top() == old(view.Top())
        invariant forall k | 0 <= k < i :: tx.vin[k].hash in view.Top().coins
      {
        var known := view.HaveCoins(tx.vin[i].hash);
        if !known { return false; }
      }
      for i := 0 to |tx.vin|
        invariant view.Below() == old(view.Below()) && view.Top() == old(view.Top())
        invariant forall k | 0 <= k < i :: Available(view.Top().coins, tx.vin[k])
      {
        var coins := view.GetCoins(tx.vin[i].hash);
        if !coins.value.IsAvailable(tx.vin[i].n) { return false; }
      }
    }
    have := true;
  }

  /** `GetValueIn`: an unchecked 64-bit sum, safe because no prefix of distinct inputs is
      worth more than all the coins in the view. */
  method GetValueIn(view: CoinsViewCache, vin: seq<OutPoint>) returns (nResult: int64)
    requires view.Valid() && WellFormed(view.Top().coins) && Total(view.Top().coins) <= 2 * MAX_MONEY
    requires Distinct(vin) && forall i | 0 <= i < |vin| :: Available(view.Top().coins, vin[i])
    modifies view.Repr
    ensures view.Below() == old(view.Below()) && view.Top() == old(view.Top())
    ensures nResult as int == ValueIn(view.Top().coins, vin)
  {
    hide CoinsViewCache.Top, CoinsViewCache.Below, CoinsViewCache.Under;
    nResult := 0;
    for i := 0 to |vin|
      invariant view.Below() == old(view.Below()) && view.Top() == old(view.Top())
      invariant nResult as int == ValueIn(view.Top().coins, vin[..i])
    {
      ghost var m := view.Top().coins;
      var coins := view.GetCoins(vin[i].hash);
      assert vin[..i + 1][..i] == vin[..i];
      ValueInBounded(m, vin[..i]);
      ValueInBounded(m, vin[..i + 1]);
      nResult := nResult + coins.value.vout[vin[i].n].nValue as int64;
    }
    assert vin[..|vin|] == vin;
  }

  /** `CheckInputs` without the scripts; the spend height comes from the view's best block. */
  method CheckInputs(view: CoinsViewCache, tx: Transaction) returns (ok: bool)
    requires view.Valid() && WellFormed(view.Top().coins) && ValidTransaction(tx)
    requires view.Top().best != null
    modifies view.Repr
    ensures view.Below() == old(view.Below()) && view.Top() == old(view.Top())
    ensures ok <==> Ledger.CheckInputs(view.Top().coins, tx, view.Top().best.nHeight + 1).Some?
  {
    hide CoinsViewCache.Top, CoinsViewCache.Below, CoinsViewCache.Under, WellFormed, ValidTransaction, InputsValue;
    if tx.IsCoinBase() { return true; }
    var have := HaveInputs(view, tx);
    if !have { return false; }
    var best := view.GetBestBlock();
    var nSpendHeight := best.nHeight + 1;
    var nValueIn: int64 := 0;
    ghost var m := view.Top().coins;
    NoInputs(m, nSpendHeight);
    assert tx.vin[..0] == [];
    for i := 0 to |tx.vin|
      invariant view.Below() == old(view.Below()) && view.Top() == old(view.Top())
      invariant InputsValue(m, tx.vin[..i], nSpendHeight) == Some(nValueIn as int) && MoneyRange(nValueIn as int)
    {
      var o := tx.vin[i];
      InputsValueNext(m, tx.vin, i, nSpendHeight);
      var found := view.GetCoins(o.hash);
      var coins := found.value;
      if InputsValue(m, tx.vin[..i + 1], nSpendHeight).None? { InputsValueStaysNone(m, tx.vin, i + 1, nSpendHeight); }
      if coins.fCoinBase && nSpendHeight - coins.nHeight < COINBASE_MATURITY { return false; }
      if !MoneyRange(coins.vout[o.n].nValue) { return false; }
      nValueIn := nValueIn + coins.vout[o.n].nValue as int64;
      if !MoneyRange(nValueIn as int) { return false; }
    }
    assert tx.vin[..|tx.vin|] == tx.vin;
    ok := nValueIn as int >= Value(tx.vout);
  }

  lemma NoInputs(m: CoinMap, nHeight: int)
    ensures InputsValue(m, [], nHeight) == Some(0)
  {
  }

  lemma InputsValueNext(m: CoinMap, vin: seq<OutPoint>, i: nat, nHeight: int)
    requires i < |vin| && InputsValue(m, vin[..i], nHeight).Some?
    ensures var sum, nValue := InputsValue(m, vin[..i], nHeight).value, OutputFor(m, vin[i]).nValue;
            InputsValue(m, vin[..i + 1], nHeight) ==
            if Immature(m, vin[i], nHeight) || !MoneyRange(nValue) || !MoneyRange(sum + nValue) then None
              else Some(sum + nValue)
  {
    assert vin[..i + 1][..i] == vin[..i];
  }

  lemma {:induction false} InputsValueStaysNone(m: CoinMap, vin: seq<OutPoint>, i: nat, nHeight: int)
    requires i <= |vin| && InputsValue(m, vin[..i], nHeight).None?
    ensures InputsValue(m, vin, nHeight).None?
  {
    if i == |vin| {
      assert vin[..i] == vin;
    } else {
      assert vin[..|vin| - 1][..i] == vin[..i];
      InputsValueStaysNone(m, vin[..|vin| - 1], i, nHeight);
    }
  }

  /** One turn of the loop of `UpdateCoins`. */
  method SpendOne(view: CoinsViewCache, o: OutPoint) returns (undo: InUndo)
    requires view.Valid() && Available(view.Top().coins, o)
    modifies view.Repr
    ensures view.Below() == old(view.Below()) && view.Top().best == old(view.Top()).best
    ensures (view.Top().coins, undo) == SpendInput(old(view.Top()).coins, o)
  {
    hide CoinsViewCache.Top, CoinsViewCache.Below, CoinsViewCache.Under;
    var coins := view.GetCoins(o.hash);
    var ret, left;
    ret, left, undo := SpendCoins(coins.value, o.n);
    assert ret;
    view.SetCoins(o.hash, left);
  }

  lemma NothingSpent(m: CoinMap)
    ensures SpendAll(m, []) == Some((m, []))
  {
  }

  /** The next input of a transaction whose inputs were all available beforehand. */
  lemma SpendStep(m: CoinMap, tx: Transaction, i: nat)
    requires WellFormed(m) && ValidTransaction(tx) && !tx.IsCoinBase() && Ledger.HaveInputs(m, tx)
    requires i < |tx.vin| && SpendAll(m, tx.vin[..i]).Some?
    ensures var (left, undos) := SpendAll(m, tx.vin[..i]).value;
      && Available(left, tx.vin[i])
      && SpendAll(m, tx.vin[..i + 1]) == Some((SpendInput(left, tx.vin[i]).0, undos + [SpendInput(left, tx.vin[i]).1]))
  {
    assert tx.vin[..i + 1][..i] == tx.vin[..i];
    SpendAllSucceeds(m, tx.vin[..i + 1]);
  }

  /** `UpdateCoins`: the assertion after every `Spend` holds because the inputs are distinct
      and were all available when the transaction was checked. */
  method UpdateCoins(view: CoinsViewCache, tx: Transaction, nHeight: int) returns (txundo: seq<InUndo>)
    requires view.Valid() && WellFormed(view.Top().coins) && ValidTransaction(tx)
    requires Ledger.HaveInputs(view.Top().coins, tx)
    modifies view.Repr
    ensures view.Below() == old(view.Below()) && view.Top().best == old(view.Top()).best
    ensures Ledger.UpdateCoins(old(view.Top()).coins, tx, nHeight) == Some((view.Top().coins, txundo))
  {
    hide CoinsViewCache.Top, CoinsViewCache.Below, CoinsViewCache.Under, WellFormed, Available, SpendAll, SpendInput,
         ValidTransaction, Ledger.HaveInputs;
    txundo := [];
    ghost var m := view.Top().coins;
    NothingSpent(m);
    assert tx.vin[..0] == [];
    if !tx.IsCoinBase() {
      for i := 0 to |tx.vin|
        invariant view.Below() == old(view.Below()) && view.Top().best == old(view.Top()).best
        invariant SpendAll(m, tx.vin[..i]) == Some((view.Top().coins, txundo))
      {
        SpendStep(m, tx, i);
        var undo := SpendOne(view, tx.vin[i]);
        txundo := txundo + [undo];
      }
      assert tx.vin[..|tx.vin|] == tx.vin;
    }
    view.SetCoins(tx.txid, Record(tx, nHeight));
  }

  /** `GetBlockValue`: the shift divides the first subsidy by two for every 100,000 blocks, so what a
      block may claim beyond its fees is never more than that, and nothing after 36 halvings. */
  method GetBlockValue(nHeight: nat, nFees: int64) returns (nValue: int64)
    requires nHeight / 100_000 < 64 && 0 <= nFees as int <= 2 * MAX_MONEY
    ensures nValue as int == Subsidy(nHeight) + nFees as int
    ensures nValue as int - nFees as int == 500 * COIN / Pow2(nHeight / 100_000)
    ensures nFees <= nValue <= nFees + 500 * COIN as int64
    ensures nValue == nFees <==> nHeight >= 3_600_000
  {
    hide Shr, Pow2;
    var nSubsidy: int64 := 500 * COIN as int64;
    nSubsidy := Shr(nSubsidy as int, nHeight / 100_000) as int64;
    SubsidyEnds(nHeight);
    ShrIsQuotient(500 * COIN, nHeight / 100_000);
    nValue := nSubsidy + nFees;
  }

  method AnyLive(view: CoinsViewCache, vtx: seq<Transaction>) returns (found: bool)
    requires view.Valid()
    modifies view.Repr
    ensures view.Below() == old(view.Below()) && view.Top() == old(view.Top())
    ensures found <==> !NoneLive(view.Top().coins, vtx)
  {
    hide CoinsViewCache.Top, CoinsViewCache.Below, CoinsViewCache.Under;
    for i := 0 to |vtx|
      invariant view.Below() == old(view.Below()) && view.Top() == old(view.Top())
      invariant forall k | 0 <= k < i :: Live(view.Top().coins, vtx[k].txid).None?
    {
      var have := view.HaveCoins(vtx[i].txid);
      if have {
        var coins := view.GetCoins(vtx[i].txid);
        if !coins.value.IsPruned() { return true; }
      }
    }
    found := false;
  }

  /** The tests `ConnectBlock` makes before it lets an ordinary transaction spend; the fee
      is added before `CheckInputs` has had its say. */
  method CheckAndCharge(view: CoinsViewCache, tx: Transaction, nHeight: nat, nFees: int64)
    returns (ok: bool, nFees': int64)
    requires view.Valid() && WellFormed(view.Top().coins) && ValidTransaction(tx) && !tx.IsCoinBase()
    requires view.Top().best != null && view.Top().best.nHeight + 1 == nHeight
    requires Total(view.Top().coins) <= 2 * MAX_MONEY && 0 <= nFees as int <= 2 * MAX_MONEY
    modifies view.Repr
    ensures view.Below() == old(view.Below()) && view.Top() == old(view.Top())
    ensures var fee := Ledger.CheckInputs(view.Top().coins, tx, nHeight);
            (ok <==> fee.Some?) && (ok ==> nFees' as int == nFees as int + fee.value)
    ensures ok ==> Ledger.HaveInputs(view.Top().coins, tx)
  {
    hide CoinsViewCache.Top, CoinsViewCache.Below, CoinsViewCache.Under;
    nFees' := nFees;
    ghost var m := view.Top().coins;
    ok := HaveInputs(view, tx);
    if ok {
      ValueInBounded(m, tx.vin);
      var nValueIn := GetValueIn(view, tx.vin);
      nFees' := nFees + (nValueIn - Value(tx.vout) as int64);
      if InputsValue(m, tx.vin, nHeight).Some? { InputsValueIsValueIn(m, tx.vin, nHeight); }
      ok := CheckInputs(view, tx);
    }
  }

  /** One turn of the transaction loop of `ConnectBlock`. */
  method ConnectTx(view: CoinsViewCache, tx: Transaction, nHeight: nat, ghost c: Connected, vtxundo: seq<seq<InUndo>>,
                   nFees: int64)
    returns (ok: bool, vtxundo': seq<seq<InUndo>>, nFees': int64)
    requires view.Valid() && WellFormed(view.Top().coins) && ValidTransaction(tx)
    requires view.Top().best != null && view.Top().best.nHeight + 1 == nHeight
    requires c == Connected(view.Top().coins, vtxundo, nFees as int)
    requires Total(c.coins) <= 2 * MAX_MONEY && 0 <= c.nFees <= 2 * MAX_MONEY
    modifies view.Repr
    ensures view.Below() == old(view.Below()) && view.Top().best == old(view.Top()).best
    ensures ok <==> Ledger.ConnectTx(c, tx, nHeight).Some?
    ensures ok ==> Ledger.ConnectTx(c, tx, nHeight) == Some(Connected(view.Top().coins, vtxundo', nFees' as int))
  {
    hide CoinsViewCache.Top, CoinsViewCache.Below, CoinsViewCache.Under, WellFormed, ValidTransaction, Total,
         Ledger.UpdateCoins;
    vtxundo', nFees', ok := vtxundo, nFees, true;
    if !tx.IsCoinBase() {
      ok, nFees' := CheckAndCharge(view, tx, nHeight, nFees);
    }
    if ok {
      var txundo := UpdateCoins(view, tx, nHeight);
      if !tx.IsCoinBase() { vtxundo' := vtxundo + [txundo]; }
    }
  }

  lemma {:induction false} ConnectTxsStaysNone(m: CoinMap, vtx: seq<Transaction>, i: nat, nHeight: int)
    requires i <= |vtx| && ConnectTxs(m, vtx[..i], nHeight).None?
    ensures ConnectTxs(m, vtx, nHeight).None?
  {
    if i == |vtx| {
      assert vtx[..i] == vtx;
    } else {
      assert vtx[..|vtx| - 1][..i] == vtx[..i];
      ConnectTxsStaysNone(m, vtx[..|vtx| - 1], i, nHeight);
    }
  }

  /** Money never gets out of hand inside a block, although the coinbase comes first and
      is not compared with the fees until the end. */
  lemma MoneyInsideBlock(m: CoinMap, vtx: seq<Transaction>, nHeight: int)
    requires WellFormed(m) && BlockPrefix(vtx) && NoneLive(m, vtx) && nHeight > 0
    requires MoneyBounded(m) && ConnectTxs(m, vtx, nHeight).Some?
    ensures var c := ConnectTxs(m, vtx, nHeight).value;
            WellFormed(c.coins) && 0 <= c.nFees <= 2 * MAX_MONEY && Total(c.coins) <= 2 * MAX_MONEY
  {
    ConnectTxsTotal(m, vtx, nHeight);
    ConnectTxsWellFormed(m, vtx, nHeight);
    TotalNonnegative(ConnectTxs(m, vtx, nHeight).value.coins);
  }

  lemma PrefixOfBlock(m: CoinMap, vtx: seq<Transaction>, i: nat)
    requires BlockPrefix(vtx) && NoneLive(m, vtx) && i < |vtx|
    ensures BlockPrefix(vtx[..i]) && NoneLive(m, vtx[..i]) && ValidTransaction(vtx[i])
  {
  }

  /** The transaction loop of `ConnectBlock`. */
  method ConnectTxLoop(view: CoinsViewCache, vtx: seq<Transaction>, nHeight: nat)
    returns (ok: bool, vtxundo: seq<seq<InUndo>>, nFees: int64)
    requires view.Valid() && WellFormed(view.Top().coins) && BlockPrefix(vtx) && NoneLive(view.Top().coins, vtx)
    requires view.Top().best != null && view.Top().best.nHeight + 1 == nHeight && MoneyBounded(view.Top().coins)
    modifies view.Repr
    ensures view.Below() == old(view.Below()) && view.Top().best == old(view.Top()).best
    ensures ok <==> ConnectTxs(old(view.Top()).coins, vtx, nHeight).Some?
    ensures ok ==>
            ConnectTxs(old(view.Top()).coins, vtx, nHeight) == Some(Connected(view.Top().coins, vtxundo, nFees as int))
  {
    hide CoinsViewCache.Top, CoinsViewCache.Below, CoinsViewCache.Under, BlockPrefix;
    ghost var m := view.Top().coins;
    vtxundo, nFees, ok := [], 0, true;
    for i := 0 to |vtx|
      invariant view.Below() == old(view.Below()) && view.Top().best == old(view.Top()).best
      invariant ConnectTxs(m, vtx[..i], nHeight) == Some(Connected(view.Top().coins, vtxundo, nFees as int))
    {
      assert vtx[..i + 1][..i] == vtx[..i];
      PrefixOfBlock(m, vtx, i);
      MoneyInsideBlock(m, vtx[..i], nHeight);
      ok, vtxundo, nFees := ConnectTx(view, vtx[i], nHeight, ConnectTxs(m, vtx[..i], nHeight).value, vtxundo, nFees);
      if !ok {
        ConnectTxsStaysNone(m, vtx, i + 1, nHeight);
        return;
      }
    }
    assert vtx[..|vtx|] == vtx;
  }

  /** The part of `ConnectBlock` that works on coins: the BIP 30 test, the transactions and
      the limit on the coinbase. */
  method ConnectCoins(view: CoinsViewCache, block: Block, nHeight: nat) returns (ok: bool, vtxundo: seq<seq<InUndo>>)
    requires view.Valid() && WellFormed(view.Top().coins) && MoneyBounded(view.Top().coins) && ValidBlock(block)
    requires view.Top().best != null && view.Top().best.nHeight + 1 == nHeight && nHeight / 100_000 < 64
    modifies view.Repr
    ensures view.Below() == old(view.Below()) && view.Top().best == old(view.Top()).best
    ensures var spec := Ledger.ConnectBlock(old(view.Top()).coins, block, nHeight);
            && (ok <==> spec.Some?)
            && (ok ==> spec.value.coins == view.Top().coins && spec.value.vtxundo == vtxundo)
  {
    hide CoinsViewCache.Top, CoinsViewCache.Below, CoinsViewCache.Under, WellFormed, Total;
    var overwrites := AnyLive(view, block.vtx);
    if overwrites { return false, []; }
    var nFees: int64;
    ok, vtxundo, nFees := ConnectTxLoop(view, block.vtx, nHeight);
    if !ok { return; }
    FeesBounded(old(view.Top()).coins, block, nHeight);
    var nLimit := GetBlockValue(nHeight, nFees);
    ok := Value(block.vtx[0].vout) <= nLimit as int;
  }

  /** Whether the block passes everything that `ConnectBlock` may blame on it. */
  ghost predicate Connects(m: CoinMap, pindex: CBlockIndex, env: Env)
    requires pindex.nHeight / 100_000 < 64
  {
    && env.fHeader && ValidBlock(pindex.block)
    && (pindex.pprev == null || (env.fScripts && Ledger.ConnectBlock(m, pindex.block, pindex.nHeight).Some?))
  }

  /** Whether everything a connected block has to write is written; the genesis block writes nothing,
      and undo data is written only once. */
  predicate Writes(pindex: CBlockIndex, env: Env, fHasUndo: bool) {
    pindex.pprev == null || ((fHasUndo || env.fUndoWritten) && env.fIndexWritten)
  }

  /** The undo data of a block connected on top of `m`, as it reads back from the undo file. */
  ghost function UndoFor(m: CoinMap, pindex: CBlockIndex): Option<seq<seq<InUndo>>>
    requires pindex.nHeight / 100_000 < 64
  {
    match Ledger.ConnectBlock(m, pindex.block, pindex.nHeight)
    case None => None
    case Some(c) => Some(StoredUndos(c.vtxundo))
  }

  /** `ConnectBlock`.  The genesis block, the only one without a parent, adds no coins.
      Undo data is written only when there is none yet. */
  method ConnectBlock(view: CoinsViewCache, pindex: CBlockIndex, env: Env) returns (r: Outcome)
    requires view.Valid() && pindex.Linked() && pindex.pprev == view.Top().best && pindex.nHeight / 100_000 < 64
    requires WellFormed(view.Top().coins) && MoneyBounded(view.Top().coins)
    modifies view.Repr, pindex`undo
    ensures view.Below() == old(view.Below())
    ensures r == Error <==> !env.fLockLimit
    ensures r == Invalid <==> env.fLockLimit && !Connects(old(view.Top()).coins, pindex, env)
    ensures r == Ok <==> env.fLockLimit && Connects(old(view.Top()).coins, pindex, env) &&
                         Writes(pindex, env, old(pindex.undo).Some?)
    ensures r == Abort <==> env.fLockLimit && Connects(old(view.Top()).coins, pindex, env) && pindex.pprev != null &&
                            ((old(pindex.undo) == None && !env.fUndoWritten) || !env.fIndexWritten)
    ensures r == Ok ==> view.Top().best == view.pindexTip == pindex
    ensures r == Ok && pindex.pprev == null ==> view.Top().coins == old(view.Top()).coins
    ensures r == Ok && pindex.pprev != null ==>
              view.Top().coins == Ledger.ConnectBlock(old(view.Top()).coins, pindex.block, pindex.nHeight).value.coins
    ensures r == Ok && pindex.pprev != null ==> pindex.undo.Some?
    ensures pindex.undo == old(pindex.undo) ||
            (pindex.pprev != null && Connects(old(view.Top()).coins, pindex, env)
             && pindex.undo == UndoFor(old(view.Top()).coins, pindex))
    ensures pindex.pprev == null || old(pindex.undo).Some? ==> pindex.undo == old(pindex.undo)
  {
    hide CoinsViewCache.Top, CoinsViewCache.Below, CoinsViewCache.Under, WellFormed, Total, Ledger.ConnectBlock,
         ValidBlock;
    if !env.fLockLimit { return Error; }
    var good := CheckBlock(pindex.block);
    if !good || !env.fHeader { return Invalid; }
    if pindex.pprev == null {
      view.SetBestBlock(pindex);
      return Ok;
    }
    var ok, vtxundo := ConnectCoins(view, pindex.block, pindex.nHeight);
    if !ok || !env.fScripts { return Invalid; }
    if pindex.undo == None {
      if !env.fUndoWritten { return Abort; }
      pindex.undo := Some(StoredUndos(vtxundo));
    }
    if !env.fIndexWritten { return Abort; }
    view.SetBestBlock(pindex);
    r := Ok;
  }

  lemma FeesBounded(m: CoinMap, block: Block, nHeight: nat)
    requires WellFormed(m) && MoneyBounded(m) && ValidBlock(block) && NoneLive(m, block.vtx) && nHeight > 0
    requires ConnectTxs(m, block.vtx, nHeight).Some?
    ensures 0 <= ConnectTxs(m, block.vtx, nHeight).value.nFees <= 2 * MAX_MONEY
  {
    MoneyInsideBlock(m, block.vtx, nHeight);
  }

  /** One turn of the restoring loop: a read that may find nothing, then a write. */
  method RestoreInput(view: CoinsViewCache, out: OutPoint, undo: InUndo) returns (fClean: bool)
    requires view.Valid()
    modifies view.Repr
    ensures view.Below() == old(view.Below()) && view.Top().best == old(view.Top()).best
    ensures (view.Top().coins, fClean) == UndoInput(old(view.Top()).coins, out, undo)
  {
    hide CoinsViewCache.Top, CoinsViewCache.Below, CoinsViewCache.Under;
    fClean := true;
    var found := view.GetCoins(out.hash);
    var coins := if found.Some? then found.value else EMPTY_COINS;
    if undo.nHeight != 0 {
      if !coins.IsPruned() { fClean := false; }
    } else {
      if coins.IsPruned() { fClean := false; }
      if coins.IsAvailable(out.n) { fClean := false; }
    }
    view.SetCoins(out.hash, coins.Unspend(out.n, undo));
  }

  /** The restoring loop of `DisconnectBlock` over the inputs of one transaction. */
  method UndoInputs(view: CoinsViewCache, vin: seq<OutPoint>, vprevout: seq<InUndo>) returns (fClean: bool)
    requires view.Valid() && |vprevout| == |vin|
    modifies view.Repr
    ensures view.Below() == old(view.Below()) && view.Top().best == old(view.Top()).best
    ensures (view.Top().coins, fClean) == UndoAll(old(view.Top()).coins, vin, vprevout)
  {
    hide CoinsViewCache.Top, CoinsViewCache.Below, CoinsViewCache.Under, UndoInput;
    fClean := true;
    var j := |vin|;
    ghost var whole := UndoAll(view.Top().coins, vin, vprevout);
    assert vin[..j] == vin && vprevout[..j] == vprevout;
    while j > 0
      invariant 0 <= j <= |vin|
      invariant view.Below() == old(view.Below()) && view.Top().best == old(view.Top()).best
      invariant var rest := UndoAll(view.Top().coins, vin[..j], vprevout[..j]); whole == (rest.0, fClean && rest.1)
    {
      j := j - 1;
      assert vin[..j + 1][..j] == vin[..j] && vprevout[..j + 1][..j] == vprevout[..j];
      var restored := RestoreInput(view, vin[j], vprevout[j]);
      fClean := fClean && restored;
    }
  }

  /** The part of `DisconnectBlock` that drops the outputs of one transaction. */
  method DropOutputs(view: CoinsViewCache, tx: Transaction, nHeight: int) returns (fClean: bool)
    requires view.Valid()
    modifies view.Repr
    ensures view.Below() == old(view.Below()) && view.Top().best == old(view.Top()).best
    ensures (view.Top().coins, fClean) == RemoveOutputs(old(view.Top()).coins, tx, nHeight)
  {
    hide CoinsViewCache.Top, CoinsViewCache.Below, CoinsViewCache.Under;
    fClean := true;
    ghost var m := view.Top().coins;
    var have := view.HaveCoins(tx.txid);
    if !have {
      fClean := false;
      view.SetCoins(tx.txid, EMPTY_COINS);
    }
    var found := view.GetCoins(tx.txid);
    var outs, outsBlock := found.value, Record(tx, nHeight);
    if outsBlock.nVersion < 0 { outs := outs.(nVersion := outsBlock.nVersion); }
    if outs != outsBlock { fClean := false; }
    view.SetCoins(tx.txid, EMPTY_COINS);
    assert view.Top().coins == m[tx.txid := EMPTY_COINS];
  }

  ghost function WithFlag(r: Option<(CoinMap, bool)>, fClean: bool): Option<(CoinMap, bool)> {
    match r case None => None case Some((m, clean)) => Some((m, fClean && clean))
  }

  /** The undo data that goes with the first n transactions of a block. */
  function UndoPrefix(vtxundo: seq<seq<InUndo>>, n: nat): seq<seq<InUndo>>
    requires n <= |vtxundo| + 1
  {
    if n == 0 then [] else vtxundo[..n - 1]
  }

  /** The transaction loop of `DisconnectBlock`, last transaction first. */
  method DisconnectTxLoop(view: CoinsViewCache, vtx: seq<Transaction>, vtxundo: seq<seq<InUndo>>, nHeight: nat)
    returns (consistent: bool, fClean: bool)
    requires view.Valid() && |vtxundo| + 1 == |vtx|
    modifies view.Repr
    ensures view.Below() == old(view.Below()) && view.Top().best == old(view.Top()).best
    ensures DisconnectTxs(old(view.Top()).coins, vtx, vtxundo, nHeight) ==
            if consistent then Some((view.Top().coins, fClean)) else None
  {
    hide CoinsViewCache.Top, CoinsViewCache.Below, CoinsViewCache.Under, UndoAll, RemoveOutputs;
    ghost var whole := DisconnectTxs(view.Top().coins, vtx, vtxundo, nHeight);
    fClean := true;
    var i := |vtx|;
    assert vtx[..i] == vtx && UndoPrefix(vtxundo, i) == vtxundo;
    while i > 0
      invariant 0 <= i <= |vtx|
      invariant view.Below() == old(view.Below()) && view.Top().best == old(view.Top()).best
      invariant whole == WithFlag(DisconnectTxs(view.Top().coins, vtx[..i], UndoPrefix(vtxundo, i), nHeight), fClean)
    {
      i := i - 1;
      assert vtx[..i + 1][..i] == vtx[..i];
      var dropped := DropOutputs(view, vtx[i], nHeight);
      fClean := fClean && dropped;
      if i > 0 {
        assert UndoPrefix(vtxundo, i + 1)[..i - 1] == UndoPrefix(vtxundo, i);
        if |vtxundo[i - 1]| != |vtx[i].vin| { return false, fClean; }
        var restored := UndoInputs(view, vtx[i].vin, vtxundo[i - 1]);
        fClean := fClean && restored;
      }
    }
    consistent := true;
  }

  /** `DisconnectBlock`, called without `pfClean`: success means the undo was clean.  The
      undo file may be unreadable. */
  method DisconnectBlock(view: CoinsViewCache, pindex: CBlockIndex, fRead: bool) returns (ok: bool)
    requires view.Valid() && pindex == view.Top().best && pindex.pprev != null
    modifies view.Repr
    ensures view.Below() == old(view.Below())
    ensures var back :=
            if pindex.undo.Some? then Ledger.DisconnectBlock(old(view.Top()).coins, pindex.block, pindex.undo.value,
              pindex.nHeight) else None;
            && (ok <==> fRead && back.Some? && back.value.1)
            && (ok ==> view.Top() == Layer(back.value.0, pindex.pprev) && view.pindexTip == pindex.pprev)
  {
    hide CoinsViewCache.Top, CoinsViewCache.Below, CoinsViewCache.Under;
    if pindex.undo == None || !fRead { return false; }
    var vtx, vtxundo := pindex.block.vtx, pindex.undo.value;
    if |vtxundo| + 1 != |vtx| { return false; }
    var consistent, fClean := DisconnectTxLoop(view, vtx, vtxundo, pindex.nHeight);
    if !consistent { return false; }
    view.SetBestBlock(pindex.pprev);
    ok := fClean;
  }
}
