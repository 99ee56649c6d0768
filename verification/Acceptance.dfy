/** What is accepted, in numbers: when a transaction and when a block may be connected, what that does to
    each output, and when a new output may be spent. */
module Acceptance {
  import opened Wrappers
  import opened Coins
  import opened Blocks
  import opened Ledger
  import opened Money
  import opened BlockIndex
  import BC = BlockConnect
  import opened ChainReplay

  // ---------- transactions by themselves ----------

  /** A transaction is a coinbase exactly when its one input is the null outpoint. */
  lemma CoinBaseMeans(tx: Transaction)
    ensures tx.IsCoinBase() <==> tx.vin == [OutPoint(0, 0xFFFF_FFFF)]
  {
  }

  lemma {:induction false} ValueOfAmounts(vout: seq<TxOut>)
    requires forall i | 0 <= i < |vout| :: vout[i].nValue >= 0
    ensures Value(vout) >= 0
    ensures vout != [] ==> Value(vout) == Value(vout[..|vout| - 1]) + vout[|vout| - 1].nValue
  {
    if vout != [] { ValueOfAmounts(vout[..|vout| - 1]); }
  }

  lemma {:induction false} SetOfDistinct<T>(s: seq<T>)
    ensures |set i | 0 <= i < |s| :: s[i]| <= |s|
    ensures |set i | 0 <= i < |s| :: s[i]| == |s| <==> Distinct(s)
  {
    if s != [] {
      var k := |s| - 1;
      var init := s[..k];
      SetOfDistinct(init);
      var a, b := set i | 0 <= i < k :: init[i], set i | 0 <= i < |s| :: s[i];
      assert b == a + {s[k]} by { assert forall i | 0 <= i < k :: init[i] == s[i]; }
      assert Distinct(s) <==> Distinct(init) && s[k] !in a by {
        assert forall i | 0 <= i < k :: init[i] == s[i];
      }
    }
  }

  /** `CheckTransaction` in numbers: no amount and no sum of amounts passes 100 million coins, as many
      different outpoints are spent as there are inputs, and the null outpoint is spent by itself only. */
  lemma ValidTransactionMeans(tx: Transaction)
    ensures ValidTransaction(tx) <==>
      && tx.vin != [] && tx.vout != []
      && (forall i | 0 <= i < |tx.vout| :: 0 <= tx.vout[i].nValue <= 10_000_000_000_000_000)
      && Value(tx.vout) <= 10_000_000_000_000_000
      && |set i | 0 <= i < |tx.vin| :: tx.vin[i]| == |tx.vin|
      && (tx.vin == [OutPoint(0, 0xFFFF_FFFF)] || OutPoint(0, 0xFFFF_FFFF) !in tx.vin)
  {
    SetOfDistinct(tx.vin);
    if forall i | 0 <= i < |tx.vout| :: tx.vout[i].nValue >= 0 { ValueOfAmounts(tx.vout); }
  }

  lemma SameIds(vtx: seq<Transaction>, ids: seq<Txid>)
    requires |ids| == |vtx| && forall i | 0 <= i < |vtx| :: ids[i] == vtx[i].txid
    ensures (set i | 0 <= i < |ids| :: ids[i]) == set i | 0 <= i < |vtx| :: vtx[i].txid
    ensures Distinct(ids) <==> UniqueTxids(vtx)
  {
    var a, b := set i | 0 <= i < |ids| :: ids[i], set i | 0 <= i < |vtx| :: vtx[i].txid;
    forall x | x in a ensures x in b {
      var i :| 0 <= i < |ids| && ids[i] == x;
      assert vtx[i].txid == x;
    }
    forall x | x in b ensures x in a {
      var i :| 0 <= i < |vtx| && vtx[i].txid == x;
      assert ids[i] == x;
    }
    if Distinct(ids) {
      forall i, j | 0 <= i < j < |vtx| ensures vtx[i].txid != vtx[j].txid { assert ids[i] != ids[j]; }
    }
  }

  /** `CheckBlock` in numbers: valid transactions, the first and only the first of them a coinbase, with
      as many different txids as there are transactions. */
  lemma ValidBlockMeans(block: Block)
    ensures ValidBlock(block) <==>
      && block.vtx != []
      && (forall i | 0 <= i < |block.vtx| ::
            ValidTransaction(block.vtx[i]) && (block.vtx[i].vin == [OutPoint(0, 0xFFFF_FFFF)] <==> i == 0))
      && |set i | 0 <= i < |block.vtx| :: block.vtx[i].txid| == |block.vtx|
  {
    hide ValidTransaction;
    var ids := seq(|block.vtx|, i requires 0 <= i < |block.vtx| => block.vtx[i].txid);
    SetOfDistinct(ids);
    SameIds(block.vtx, ids);
    forall i | 0 <= i < |block.vtx|
      ensures block.vtx[i].IsCoinBase() <==> block.vtx[i].vin == [OutPoint(0, 0xFFFF_FFFF)]
    {
      CoinBaseMeans(block.vtx[i]);
    }
  }

  // ---------- inputs ----------

  /** An input that may be spent at a height: the output is there, and ten blocks deep if it comes from
      a coinbase. */
  predicate Spendable(m: CoinMap, o: OutPoint, nHeight: int) {
    Available(m, o) && (m[o.hash].fCoinBase ==> nHeight - m[o.hash].nHeight >= 10)
  }

  lemma InputValue(m: CoinMap, o: OutPoint)
    requires WellFormed(m) && Available(m, o)
    ensures 0 <= OutputFor(m, o).nValue <= 10_000_000_000_000_000
  {
    assert Live(m, o.hash).Some?;
  }

  lemma {:induction false} InputsValueIff(m: CoinMap, vin: seq<OutPoint>, nHeight: int)
    requires WellFormed(m) && forall i | 0 <= i < |vin| :: Available(m, vin[i])
    ensures ValueIn(m, vin) >= 0
    ensures InputsValue(m, vin, nHeight).Some? <==>
              (forall i | 0 <= i < |vin| :: Spendable(m, vin[i], nHeight)) && ValueIn(m, vin) <= 10_000_000_000_000_000
    ensures InputsValue(m, vin, nHeight).Some? ==> InputsValue(m, vin, nHeight).value == ValueIn(m, vin)
  {
    hide WellFormed, Available, OutputFor;
    if vin != [] {
      var k := |vin| - 1;
      InputsValueIff(m, vin[..k], nHeight);
      InputValue(m, vin[k]);
      Mature(m, vin[k], nHeight);
      assert forall i | 0 <= i < k :: vin[..k][i] == vin[i];
    }
  }

  lemma Mature(m: CoinMap, o: OutPoint, nHeight: int)
    requires Available(m, o)
    ensures Immature(m, o, nHeight) <==> !Spendable(m, o, nHeight)
  {
  }

  /** An ordinary transaction passes exactly when its inputs may be spent and are worth at least its
      outputs, and at most 100 million coins; the difference is its fee, which may be zero. */
  lemma CheckInputsIff(m: CoinMap, tx: Transaction, nHeight: int)
    requires WellFormed(m) && ValidTransaction(tx) && tx.vin != [OutPoint(0, 0xFFFF_FFFF)]
    ensures Ledger.CheckInputs(m, tx, nHeight).Some? <==>
      && (forall i | 0 <= i < |tx.vin| :: Spendable(m, tx.vin[i], nHeight))
      && Value(tx.vout) <= ValueIn(m, tx.vin) <= 10_000_000_000_000_000
    ensures Ledger.CheckInputs(m, tx, nHeight).Some? ==>
              Ledger.CheckInputs(m, tx, nHeight).value == ValueIn(m, tx.vin) - Value(tx.vout)
  {
    hide WellFormed, Available, InputsValue, ValueIn, Value;
    if forall i | 0 <= i < |tx.vin| :: Available(m, tx.vin[i]) { InputsValueIff(m, tx.vin, nHeight); }
  }

  // ---------- connecting a transaction ----------

  lemma {:induction false} SpendAllKeeps(m: CoinMap, vin: seq<OutPoint>, id: Txid)
    requires WellFormed(m) && SpendAll(m, vin).Some?
    ensures var w := SpendAll(m, vin).value.0;
            Live(w, id).Some? ==>
              && Live(m, id).Some? && w[id].fCoinBase == m[id].fCoinBase && w[id].nHeight == m[id].nHeight
              && w[id].nVersion == m[id].nVersion
  {
    hide WellFormed, SpendInput, Available, Live;
    if vin != [] {
      var k := |vin| - 1;
      SpendAllWellFormed(m, vin[..k]);
      SpendOneKeeps(SpendAll(m, vin[..k]).value.0, vin[k], id);
      SpendAllKeeps(m, vin[..k], id);
      LiveKnown(SpendAll(m, vin).value.0, id);
    }
  }

  lemma LiveKnown(m: CoinMap, id: Txid)
    ensures Live(m, id).Some? ==> id in m
  {
  }

  lemma SpendOneKeeps(m: CoinMap, o: OutPoint, id: Txid)
    requires WellFormed(m) && Available(m, o)
    ensures var w := SpendInput(m, o).0;
            Live(w, id).Some? ==>
              && Live(m, id).Some? && w[id].fCoinBase == m[id].fCoinBase && w[id].nHeight == m[id].nHeight
              && w[id].nVersion == m[id].nVersion
  {
  }

  /** What connecting a transaction does to every output: its own are there, the ones it spends are
      gone, all others stay as they were. */
  lemma UpdateCoinsMeans(m: CoinMap, tx: Transaction, nHeight: int)
    requires WellFormed(m) && ValidTransaction(tx) && nHeight > 0 && UpdateCoins(m, tx, nHeight).Some?
    ensures var w := UpdateCoins(m, tx, nHeight).value.0;
            && (forall o: OutPoint | o.hash == tx.txid :: Available(w, o) <==> o.n < |tx.vout|)
            && (forall o: OutPoint | o.hash == tx.txid && o.n < |tx.vout| :: OutputFor(w, o) == tx.vout[o.n])
            && (forall o: OutPoint | o.hash != tx.txid ::
                  Available(w, o) <==> Available(m, o) && (tx.IsCoinBase() || o !in tx.vin))
            && (forall o: OutPoint | o.hash != tx.txid && Available(w, o) :: OutputFor(w, o) == OutputFor(m, o))
  {
    hide WellFormed, SpendAll;
    var s := if tx.IsCoinBase() then m else SpendAll(m, tx.vin).value.0;
    if !tx.IsCoinBase() { SpendAllWellFormed(m, tx.vin); }
    var w := s[tx.txid := Record(tx, nHeight)];
    forall o: OutPoint | o.hash == tx.txid ensures Available(w, o) <==> o.n < |tx.vout| {}
    forall o: OutPoint | o.hash != tx.txid
      ensures (Available(w, o) <==> Available(s, o)) && (Available(w, o) ==> OutputFor(w, o) == OutputFor(s, o)) {
    }
  }

  /** The record of a connected transaction says what the transaction is and where it stands; the other
      records that are left keep what they said. */
  lemma RecordsAfter(m: CoinMap, tx: Transaction, nHeight: int, id: Txid)
    requires WellFormed(m) && ValidTransaction(tx) && nHeight > 0 && UpdateCoins(m, tx, nHeight).Some?
    ensures var w := UpdateCoins(m, tx, nHeight).value.0;
            && Live(w, tx.txid).Some? && w[tx.txid].vout == tx.vout && w[tx.txid].nVersion == tx.nVersion
            && w[tx.txid].nHeight == nHeight && (w[tx.txid].fCoinBase <==> tx.vin == [OutPoint(0, 0xFFFF_FFFF)])
            && (id != tx.txid && Live(w, id).Some? ==>
                  && Live(m, id).Some? && w[id].fCoinBase == m[id].fCoinBase && w[id].nHeight == m[id].nHeight
                  && w[id].nVersion == m[id].nVersion)
  {
    UpdateCoinsWellFormed(m, tx, nHeight);
    if !tx.IsCoinBase() { SpendAllKeeps(m, tx.vin, id); }
  }

  /** An ordinary transaction connects exactly when its inputs may be spent and pay for its outputs, and
      then adds the difference to the fees; a coinbase always does. */
  lemma ConnectTxIff(c: Connected, tx: Transaction, nHeight: int)
    requires WellFormed(c.coins) && ValidTransaction(tx)
    ensures ConnectTx(c, tx, nHeight).Some? <==>
      || tx.vin == [OutPoint(0, 0xFFFF_FFFF)]
      || (&& (forall i | 0 <= i < |tx.vin| :: Spendable(c.coins, tx.vin[i], nHeight))
          && Value(tx.vout) <= ValueIn(c.coins, tx.vin) <= 10_000_000_000_000_000)
    ensures ConnectTx(c, tx, nHeight).Some? ==>
              ConnectTx(c, tx, nHeight).value.nFees ==
              c.nFees + if tx.vin == [OutPoint(0, 0xFFFF_FFFF)] then 0 else ValueIn(c.coins, tx.vin) - Value(tx.vout)
  {
    hide WellFormed, Available, InputsValue, ValueIn, Value, SpendAll;
    CoinBaseMeans(tx);
    if !tx.IsCoinBase() {
      CheckInputsIff(c.coins, tx, nHeight);
      if forall i | 0 <= i < |tx.vin| :: Available(c.coins, tx.vin[i]) { SpendAllSucceeds(c.coins, tx.vin); }
    }
  }

  /** A new output may be spent at once, unless it comes from a coinbase, which takes ten blocks: with all
      other inputs spendable and the amounts in order, that alone decides. */
  lemma SpendingNewOutput(m: CoinMap, tx: Transaction, nHeight: int, spender: Transaction, j: nat, nSpendHeight: int)
    requires WellFormed(m) && ValidTransaction(tx) && nHeight > 0 && UpdateCoins(m, tx, nHeight).Some?
    requires ValidTransaction(spender) && !spender.IsCoinBase() && j < |spender.vin|
    requires spender.vin[j].hash == tx.txid && spender.vin[j].n < |tx.vout|
    requires var w := UpdateCoins(m, tx, nHeight).value.0;
      && (forall i | 0 <= i < |spender.vin| && i != j :: Spendable(w, spender.vin[i], nSpendHeight))
      && Value(spender.vout) <= ValueIn(w, spender.vin) <= 10_000_000_000_000_000
    ensures var w := UpdateCoins(m, tx, nHeight).value.0;
            Ledger.CheckInputs(w, spender, nSpendHeight).Some? <==>
              tx.vin != [OutPoint(0, 0xFFFF_FFFF)] || nSpendHeight - nHeight >= 10
  {
    hide WellFormed, ValueIn, Value, UpdateCoins, ValidTransaction, Ledger.CheckInputs;
    var w := UpdateCoins(m, tx, nHeight).value.0;
    UpdateCoinsWellFormed(m, tx, nHeight);
    UpdateCoinsMeans(m, tx, nHeight);
    RecordsAfter(m, tx, nHeight, 0);
    CoinBaseMeans(spender);
    CheckInputsIff(w, spender, nSpendHeight);
  }

  // ---------- connecting a block ----------

  /** A block is accepted exactly when it is valid, overwrites no unspent record, all its transactions
      connect, and it adds no more to the unspent value than 500 coins, halved once for every 100,000
      blocks.  All of that may be claimed. */
  lemma BlockAcceptedIff(m: CoinMap, block: Block, nHeight: nat)
    requires WellFormed(m) && 0 < nHeight && nHeight / 100_000 < 64
    ensures Ledger.ConnectBlock(m, block, nHeight).Some? <==>
      && ValidBlock(block) && NoneLive(m, block.vtx) && ConnectTxs(m, block.vtx, nHeight).Some?
      && Total(ConnectTxs(m, block.vtx, nHeight).value.coins) <= Total(m) + 50_000_000_000 / Pow2(nHeight / 100_000)
    ensures Ledger.ConnectBlock(m, block, nHeight).Some? ==>
              Ledger.ConnectBlock(m, block, nHeight) == ConnectTxs(m, block.vtx, nHeight)
  {
    hide WellFormed, Total, ConnectTxs, Shr, Pow2;
    ShrIsQuotient(50_000_000_000, nHeight / 100_000);
    if ValidBlock(block) && NoneLive(m, block.vtx) && ConnectTxs(m, block.vtx, nHeight).Some? {
      ConnectTxsTotal(m, block.vtx, nHeight);
    }
  }

  /** A block of a chain passes exactly when its parent's chain does and it is accepted on top of that. */
  lemma PassesIff(b: CBlockIndex, env: BC.Env)
    requires Bounded(b)
    ensures Passes(b, env) <==>
      && env.fHeader && ValidBlock(b.block)
      && (b.pprev == null ||
          (&& env.fScripts && Replay(b.pprev).Some?
           && var m := Replay(b.pprev).value;
              && NoneLive(m, b.block.vtx) && ConnectTxs(m, b.block.vtx, b.nHeight).Some?
              && Total(ConnectTxs(m, b.block.vtx, b.nHeight).value.coins)
                 <= Total(m) + 50_000_000_000 / Pow2(b.nHeight / 100_000)))
  {
    hide WellFormed, Total, ConnectTxs, Pow2, ValidBlock, Ledger.ConnectBlock;
    if b.pprev != null && Replay(b.pprev).Some? {
      ReplayMoney(b.pprev);
      BlockAcceptedIff(Replay(b.pprev).value, b.block, b.nHeight);
    }
  }
}
