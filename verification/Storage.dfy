/** The records and undo entries of a chain fit their byte formats, so that what the store is said to
    hold is what reading the bytes gives. */
module Storage {
  import opened Wrappers
  import opened Coins
  import opened Blocks
  import opened Ledger
  import opened BlockIndex
  import opened CoinsView
  import opened ChainReplay
  import opened CoinsRecord
  import opened UndoRecord
  import VarInt
  import ScriptCompressor

  /** A transaction with a 32-bit version and with outputs and scripts that can be counted in 32 bits:
      every transaction of less than a block's size. */
  predicate Encodable(tx: Transaction) {
    && VarInt.Width.Int32.Fits(tx.nVersion) && |tx.vout| < 0x8000_0000
    && forall i | 0 <= i < |tx.vout| :: |tx.vout[i].scriptPubKey| + ScriptCompressor.N_SPECIAL_SCRIPTS < 0x1_0000_0000
  }

  predicate AllEncodable(vtx: seq<Transaction>) { forall i | 0 <= i < |vtx| :: Encodable(vtx[i]) }

  ghost predicate EncodableChain(b: CBlockIndex?)
    requires b != null ==> b.Linked()
    decreases if b == null then 0 else b.nHeight + 1
  {
    b != null && b.pprev != null ==> AllEncodable(b.block.vtx) && EncodableChain(b.pprev)
  }

  ghost predicate AllStorable(m: CoinMap) {
    forall id: Txid :: Live(m, id).Some? ==> Storable(m[id])
  }

  predicate AllWritable(undos: seq<InUndo>) { forall i | 0 <= i < |undos| :: Writable(undos[i]) }

  predicate UndosWritable(vtxundo: seq<seq<InUndo>>) { forall i | 0 <= i < |vtxundo| :: AllWritable(vtxundo[i]) }

  lemma RecordStorable(tx: Transaction, nHeight: int)
    requires ValidTransaction(tx) && Encodable(tx) && 0 < nHeight < 0x8000_0000
    ensures Storable(Record(tx, nHeight))
  {
    assert !tx.vout[0].IsNull();
  }

  /** Spending one output leaves nothing, or a record that fits, and an entry that fits. */
  lemma SpendStorable(c: Coins, n: nat)
    requires Storable(c) && c.IsAvailable(n) && c.nHeight > 0
    ensures c.Spend(n).0.IsPruned() || Storable(c.Spend(n).0)
    ensures Writable(c.Spend(n).1)
  {
    SpendRemovesOne(c, n);
  }

  lemma SpendInputStorable(m: CoinMap, o: OutPoint)
    requires WellFormed(m) && AllStorable(m) && Available(m, o)
    ensures AllStorable(SpendInput(m, o).0) && Writable(SpendInput(m, o).1)
  {
    hide Storable, Writable, Coins.Spend;
    assert Live(m, o.hash).Some?;
    SpendStorable(m[o.hash], o.n);
    var m1 := SpendInput(m, o).0;
    forall id: Txid | Live(m1, id).Some? ensures Storable(m1[id]) {
      if id != o.hash { assert Live(m, id).Some?; }
    }
  }

  lemma {:induction false} SpendAllStorable(m: CoinMap, vin: seq<OutPoint>)
    requires WellFormed(m) && AllStorable(m) && SpendAll(m, vin).Some?
    ensures AllStorable(SpendAll(m, vin).value.0) && AllWritable(SpendAll(m, vin).value.1)
  {
    hide WellFormed, AllStorable, SpendInput, Available, Writable;
    if vin != [] {
      var k := |vin| - 1;
      SpendAllStorable(m, vin[..k]);
      SpendAllWellFormed(m, vin[..k]);
      SpendInputStorable(SpendAll(m, vin[..k]).value.0, vin[k]);
    }
  }

  lemma AddStorable(m: CoinMap, id: Txid, c: Coins)
    requires AllStorable(m) && Storable(c)
    ensures AllStorable(m[id := c])
  {
    hide Storable;
    var w := m[id := c];
    forall k: Txid | Live(w, k).Some? ensures Storable(w[k]) {
      if k != id { assert Live(m, k).Some?; }
    }
  }

  lemma ConnectTxStorable(c: Connected, tx: Transaction, nHeight: int)
    requires WellFormed(c.coins) && AllStorable(c.coins) && UndosWritable(c.vtxundo)
    requires ValidTransaction(tx) && Encodable(tx) && 0 < nHeight < 0x8000_0000 && ConnectTx(c, tx, nHeight).Some?
    ensures AllStorable(ConnectTx(c, tx, nHeight).value.coins) && UndosWritable(ConnectTx(c, tx, nHeight).value.vtxundo)
  {
    hide WellFormed, AllStorable, AllWritable, ValidTransaction, Encodable, SpendAll, CheckInputs;
    RecordStorable(tx, nHeight);
    if tx.IsCoinBase() {
      AddStorable(c.coins, tx.txid, Record(tx, nHeight));
    } else {
      SpendAllStorable(c.coins, tx.vin);
      AddStorable(SpendAll(c.coins, tx.vin).value.0, tx.txid, Record(tx, nHeight));
    }
  }

  lemma {:induction false} ConnectTxsStorable(m: CoinMap, vtx: seq<Transaction>, nHeight: int)
    requires WellFormed(m) && AllStorable(m) && BlockPrefix(vtx) && AllEncodable(vtx) && 0 < nHeight < 0x8000_0000
    requires ConnectTxs(m, vtx, nHeight).Some?
    ensures var c := ConnectTxs(m, vtx, nHeight).value; AllStorable(c.coins) && UndosWritable(c.vtxundo)
  {
    hide WellFormed, AllStorable, AllWritable, Encodable, ConnectTx;
    if vtx != [] {
      var k := |vtx| - 1;
      ShorterPrefix(vtx);
      ConnectTxsStorable(m, vtx[..k], nHeight);
      ConnectTxsWellFormed(m, vtx[..k], nHeight);
      ConnectTxStorable(ConnectTxs(m, vtx[..k], nHeight).value, vtx[k], nHeight);
    }
  }

  lemma ConnectBlockStorable(m: CoinMap, block: Block, nHeight: nat)
    requires WellFormed(m) && AllStorable(m) && AllEncodable(block.vtx) && 0 < nHeight && nHeight / 100_000 < 64
    requires Ledger.ConnectBlock(m, block, nHeight).Some?
    ensures var c := Ledger.ConnectBlock(m, block, nHeight).value; AllStorable(c.coins) && UndosWritable(c.vtxundo)
  {
    ConnectTxsStorable(m, block.vtx, nHeight);
  }

  /** On every such chain, all records and all undo data fit. */
  lemma {:induction false} ReplayStorable(b: CBlockIndex?)
    requires Bounded(b) && Replay(b).Some? && EncodableChain(b)
    ensures AllStorable(Replay(b).value)
    ensures b != null && b.pprev != null ==>
              Replay(b.pprev).Some? && Ledger.ConnectBlock(Replay(b.pprev).value, b.block, b.nHeight).Some?
              && UndosWritable(Ledger.ConnectBlock(Replay(b.pprev).value, b.block, b.nHeight).value.vtxundo)
    decreases if b == null then 0 else b.nHeight + 1
  {
    hide Ledger.ConnectBlock, AllEncodable;
    if b != null && b.pprev != null {
      ReplayStorable(b.pprev);
      ReplayMoney(b.pprev);
      ConnectBlockStorable(Replay(b.pprev).value, b.block, b.nHeight);
    }
  }

  lemma StoredFormStorable(x: Coins, c: Coins)
    requires Storable(c) && x.Shows(c)
    ensures Storable(x)
  {
    assert x.vout == c.vout;
  }

  lemma StoredFormWritable(v: InUndo, u: InUndo)
    requires Writable(u) && v.Shows(u)
    ensures Writable(v)
  {
  }

  /** What `Written` stores is what the bytes written give when they are read: every live record of
      every view of such a chain comes back as its stored form. */
  lemma RecordsReadBack(curve: Curve, view: Layer, id: Txid, rest: seq<byte>)
    requires curve.Lawful() && Replays(view) && EncodableChain(view.best) && Live(view.coins, id).Some?
    ensures Storable(view.coins[id])
    ensures var c := view.coins[id];
            ParseRecord(curve, RecordBytes(curve, c) + rest) == Some(VarInt.Parsed(c.StoredForm(), rest))
  {
    hide Storable, Coins.Shows, Replay, ParseRecord, RecordBytes;
    var m := Replay(view.best).value;
    assert Shown(Live(view.coins, id), Live(m, id));
    ReplayStorable(view.best);
    StoredFormStorable(view.coins[id], m[id]);
    RecordRoundTrip(curve, view.coins[id], rest);
  }

  /** And so does every undo entry that connecting a block to any view of its parent's chain writes. */
  lemma UndoReadsBack(curve: Curve, view: Layer, b: CBlockIndex, i: nat, j: nat, rest: seq<byte>)
    requires curve.Lawful() && Replays(view) && Bounded(b) && b.pprev != null && view.best == b.pprev
    requires EncodableChain(b) && Ledger.ConnectBlock(view.coins, b.block, b.nHeight).Some?
    requires var undos := Ledger.ConnectBlock(view.coins, b.block, b.nHeight).value.vtxundo;
             i < |undos| && j < |undos[i]|
    ensures var u := Ledger.ConnectBlock(view.coins, b.block, b.nHeight).value.vtxundo[i][j];
            Writable(u) && ParseUndo(curve, UndoBytes(curve, u) + rest) == Some(VarInt.Parsed(u.StoredForm(), rest))
  {
    hide Ledger.ConnectBlock, Shows, WellFormed, InUndo.Shows, ParseUndo, UndoBytes;
    var m := Replay(b.pprev).value;
    ReplayMoney(b.pprev);
    ConnectBlockShows(view.coins, m, b.block, b.nHeight);
    ReplayStorable(b.pprev);
    ConnectBlockStorable(m, b.block, b.nHeight);
    var v, u :=
      Ledger.ConnectBlock(view.coins, b.block, b.nHeight).value.vtxundo,
        Ledger.ConnectBlock(m, b.block, b.nHeight).value.vtxundo;
    assert UndoShows(v[i], u[i]) && AllWritable(u[i]);
    StoredFormWritable(v[i][j], u[i][j]);
    UndoRoundTrip(curve, v[i][j], rest);
  }
}
