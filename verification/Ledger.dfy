/** What connecting and disconnecting a block do to the set of unspent coins, as functions
    on plain maps, and the theorem that the second undoes the first. */
module Ledger {
  import opened Wrappers
  import opened Coins
  import opened Blocks

  type CoinMap = map<Txid, Coins>

  /** The record of a transaction that still has an unspent output.  A pruned record and
      an absent one mean the same. */
  function Live(m: CoinMap, id: Txid): Option<Coins> {
    if id in m && !m[id].IsPruned() then Some(m[id]) else None
  }

  /** Two maps with the same unspent outputs, carrying the same data. */
  ghost predicate Same(a: CoinMap, b: CoinMap) {
    forall id: Txid :: Live(a, id) == Live(b, id)
  }

  /** The first map has the unspent outputs of the second one, in records that may have been
      stored in between. */
  ghost predicate Shows(v: CoinMap, m: CoinMap) {
    forall id: Txid :: Shown(Live(v, id), Live(m, id))
  }

  predicate Shown(x: Option<Coins>, c: Option<Coins>) {
    if c.Some? then x.Some? && x.value.Shows(c.value) else x.None?
  }

  /** Undo data for the same outputs, read back from storage or not. */
  predicate UndoShows(v: seq<InUndo>, u: seq<InUndo>) {
    |v| == |u| && forall i | 0 <= i < |u| :: v[i].Shows(u[i])
  }

  predicate UndosShow(v: seq<seq<InUndo>>, u: seq<seq<InUndo>>) {
    |v| == |u| && forall i | 0 <= i < |u| :: UndoShows(v[i], u[i])
  }

  /** What undo data reads back as. */
  function StoredUndo(u: seq<InUndo>): seq<InUndo> { seq(|u|, i requires 0 <= i < |u| => u[i].StoredForm()) }

  function StoredUndos(u: seq<seq<InUndo>>): seq<seq<InUndo>> { seq(|u|, i requires 0 <= i < |u| => StoredUndo(u[i])) }

  /** Once stored, undo data that shows the same entries is the same. */
  lemma StoredUndosShow(v: seq<seq<InUndo>>, u: seq<seq<InUndo>>)
    requires UndosShow(v, u)
    ensures StoredUndos(v) == StoredUndos(u) && UndosShow(StoredUndos(v), u)
  {
    forall i | 0 <= i < |u| ensures StoredUndo(v[i]) == StoredUndo(u[i]) {
      assert UndoShows(v[i], u[i]);
    }
  }

  lemma ShowsTransitive(a: CoinMap, b: CoinMap, c: CoinMap)
    requires Shows(a, b) && Shows(b, c)
    ensures Shows(a, c)
  {
    forall id: Txid ensures Shown(Live(a, id), Live(c, id)) {
      assert Shown(Live(a, id), Live(b, id)) && Shown(Live(b, id), Live(c, id));
    }
  }

  /** Showing each other is being the same: storing a record twice changes it no further. */
  lemma ShowsBothWays(a: CoinMap, b: CoinMap)
    ensures Shows(a, b) && Shows(b, a) <==> Same(a, b)
  {
    if Shows(a, b) && Shows(b, a) {
      forall id: Txid ensures Live(a, id) == Live(b, id) {
        assert Shown(Live(a, id), Live(b, id)) && Shown(Live(b, id), Live(a, id));
      }
    }
  }

  lemma UndosBothWays(u: seq<seq<InUndo>>, v: seq<seq<InUndo>>)
    requires UndosShow(u, v) && UndosShow(v, u)
    ensures u == v
  {
    forall i | 0 <= i < |u| ensures u[i] == v[i] {
      forall j | 0 <= j < |u[i]| ensures u[i][j] == v[i][j] {
        assert u[i][j].Shows(v[i][j]) && v[i][j].Shows(u[i][j]);
      }
    }
  }

  predicate Available(m: CoinMap, o: OutPoint) {
    o.hash in m && m[o.hash].IsAvailable(o.n)
  }

  /** `GetOutputFor`; the null output stands for its failed assertion. */
  function OutputFor(m: CoinMap, o: OutPoint): TxOut {
    if Available(m, o) then m[o.hash].vout[o.n] else NULL_OUT
  }

  /** What holds of every unspent record of a reachable map. */
  predicate GoodRecord(c: Coins) {
    c.IsClean() && c.nHeight > 0 && forall i | 0 <= i < |c.vout| && !c.vout[i].IsNull() :: MoneyRange(c.vout[i].nValue)
  }

  ghost predicate WellFormed(m: CoinMap) {
    forall id: Txid :: Live(m, id).Some? ==> GoodRecord(m[id])
  }

  // ---------- spending and restoring the inputs of a transaction ----------

  function SpendInput(m: CoinMap, o: OutPoint): (CoinMap, InUndo)
    requires Available(m, o)
  {
    var (left, undo) := m[o.hash].Spend(o.n);
    (m[o.hash := left], undo)
  }

  /** The spending loop of `UpdateCoins`; None stands for its failed assertion. */
  function SpendAll(m: CoinMap, vin: seq<OutPoint>): Option<(CoinMap, seq<InUndo>)> {
    if vin == [] then Some((m, [])) else
      var o := vin[|vin| - 1];
      match SpendAll(m, vin[..|vin| - 1])
      case None => None
      case Some((m1, undos)) =>
        if !Available(m1, o) then None else
          var (m2, undo) := SpendInput(m1, o);
          Some((m2, undos + [undo]))
  }

  /** One turn of the restoring loop of `DisconnectBlock`, with its clean flag. */
  function UndoInput(m: CoinMap, o: OutPoint, undo: InUndo): (CoinMap, bool) {
    var coins := if o.hash in m then m[o.hash] else EMPTY_COINS;
    (m[o.hash := coins.Unspend(o.n, undo)],
     if undo.nHeight != 0 then coins.IsPruned() else !coins.IsPruned() && !coins.IsAvailable(o.n))
  }

  /** The restoring loop runs from the last input to the first. */
  function UndoAll(m: CoinMap, vin: seq<OutPoint>, undos: seq<InUndo>): (CoinMap, bool)
    requires |undos| == |vin|
    decreases |vin|
  {
    if vin == [] then (m, true) else
      var k := |vin| - 1;
      var (m1, clean1) := UndoInput(m, vin[k], undos[k]);
      var (m2, clean2) := UndoAll(m1, vin[..k], undos[..k]);
      (m2, clean1 && clean2)
  }

  lemma SpendShows(x: Coins, c: Coins, n: nat)
    requires x.Shows(c) && c.nHeight > 0 && c.IsAvailable(n)
    ensures x.IsAvailable(n) && x.Spend(n).0.Shows(c.Spend(n).0) && x.Spend(n).1.Shows(c.Spend(n).1)
  {
  }

  lemma SpendInputShows(v: CoinMap, m: CoinMap, o: OutPoint)
    requires Shows(v, m) && Available(m, o) && WellFormed(m)
    ensures Available(v, o) && SpendInput(v, o).1.Shows(SpendInput(m, o).1)
    ensures Shows(SpendInput(v, o).0, SpendInput(m, o).0)
  {
    assert Live(m, o.hash).Some? && Shown(Live(v, o.hash), Live(m, o.hash));
    SpendShows(v[o.hash], m[o.hash], o.n);
    forall id: Txid ensures Shown(Live(SpendInput(v, o).0, id), Live(SpendInput(m, o).0, id)) {
      assert Shown(Live(v, id), Live(m, id));
    }
  }

  lemma SpendInputWellFormed(m: CoinMap, o: OutPoint)
    requires WellFormed(m) && Available(m, o)
    ensures WellFormed(SpendInput(m, o).0)
    ensures forall p: OutPoint :: Available(SpendInput(m, o).0, p) <==> p != o && Available(m, p)
    ensures forall p: OutPoint | p != o :: OutputFor(SpendInput(m, o).0, p) == OutputFor(m, p)
  {
    assert Live(m, o.hash).Some?;
    SpendRemovesOne(m[o.hash], o.n);
    var m1 := SpendInput(m, o).0;
    forall id: Txid | Live(m1, id).Some? ensures GoodRecord(m1[id]) {
      if id != o.hash { assert Live(m, id).Some?; }
    }
  }

  /** The record restored from what is left of the spent one and of its undo entry: `left`
      stands for any pruned record once nothing of it is unspent. */
  lemma UnspendShows(c: Coins, n: nat, left: Coins, undo: InUndo)
    requires GoodRecord(c) && c.IsAvailable(n) && undo.Shows(c.Spend(n).1)
    requires if c.Spend(n).0.IsPruned() then left.IsPruned() else left.Shows(c.Spend(n).0)
    ensures left.Unspend(n, undo).Shows(c)
    ensures if undo.nHeight != 0 then left.IsPruned() else !left.IsPruned() && !left.IsAvailable(n)
  {
    SpendRemovesOne(c, n);
    SpendUnspend(c, n);
    if undo.nHeight == 0 {
      assert left.Unspend(n, undo).vout == c.Spend(n).0.Unspend(n, c.Spend(n).1).vout;
    }
  }

  /** Restoring an input undoes spending it, whatever form the spent record is kept in and
      whether or not the undo entry was stored. */
  lemma {:induction false} UndoSpentInput(m: CoinMap, m': CoinMap, o: OutPoint, undo: InUndo)
    requires WellFormed(m) && Available(m, o) && Shows(m', SpendInput(m, o).0) && undo.Shows(SpendInput(m, o).1)
    ensures var (back, clean) := UndoInput(m', o, undo);
            clean && Shows(back, m)
  {
    hide GoodRecord, Coins.Spend, Coins.Unspend, InUndo.Shows, Coins.Shows;
    assert Live(m, o.hash).Some?;
    var m1 := SpendInput(m, o).0;
    var left := if o.hash in m' then m'[o.hash] else EMPTY_COINS;
    assert Shown(Live(m', o.hash), Live(m1, o.hash));
    UnspendShows(m[o.hash], o.n, left, undo);
    forall id: Txid | id != o.hash ensures Shown(Live(m', id), Live(m, id)) {
      assert Shown(Live(m', id), Live(m1, id));
    }
    PutShows(m', m, o.hash, left.Unspend(o.n, undo));
  }

  lemma PutShows(v: CoinMap, m: CoinMap, id: Txid, c: Coins)
    requires forall k: Txid | k != id :: Shown(Live(v, k), Live(m, k))
    requires Live(m, id).Some? && c.Shows(m[id])
    ensures Shows(v[id := c], m)
  {
    var w := v[id := c];
    forall k: Txid ensures Shown(Live(w, k), Live(m, k)) {
      if k != id { assert Shown(Live(v, k), Live(m, k)); }
    }
  }

  lemma {:induction false} SpendAllWellFormed(m: CoinMap, vin: seq<OutPoint>)
    requires WellFormed(m) && SpendAll(m, vin).Some?
    ensures WellFormed(SpendAll(m, vin).value.0) && |SpendAll(m, vin).value.1| == |vin|
    ensures forall p: OutPoint :: Available(SpendAll(m, vin).value.0, p) <==> p !in vin && Available(m, p)
    ensures forall p: OutPoint | p !in vin :: OutputFor(SpendAll(m, vin).value.0, p) == OutputFor(m, p)
  {
    hide WellFormed, SpendInput, Available, OutputFor;
    if vin != [] {
      var k, before := |vin| - 1, vin[..|vin| - 1];
      SpendAllWellFormed(m, before);
      SpendInputWellFormed(SpendAll(m, before).value.0, vin[k]);
      forall p: OutPoint ensures p in vin <==> p in before || p == vin[k] {
        assert vin == before + [vin[k]];
      }
    }
  }

  /** The assertion in `UpdateCoins` never fires: distinct inputs that are all available
      beforehand can be spent one after the other. */
  lemma {:induction false} SpendAllSucceeds(m: CoinMap, vin: seq<OutPoint>)
    requires WellFormed(m) && Distinct(vin) && forall i | 0 <= i < |vin| :: Available(m, vin[i])
    ensures SpendAll(m, vin).Some?
  {
    if vin != [] {
      var k := |vin| - 1;
      SpendAllSucceeds(m, vin[..k]);
      SpendAllWellFormed(m, vin[..k]);
    }
  }

  lemma {:induction false} SpendAllShows(v: CoinMap, m: CoinMap, vin: seq<OutPoint>)
    requires Shows(v, m) && WellFormed(m)
    ensures SpendAll(v, vin).Some? <==> SpendAll(m, vin).Some?
    ensures SpendAll(m, vin).Some? ==> UndoShows(SpendAll(v, vin).value.1, SpendAll(m, vin).value.1)
    ensures SpendAll(m, vin).Some? ==> Shows(SpendAll(v, vin).value.0, SpendAll(m, vin).value.0)
  {
    hide Shows, WellFormed, SpendInput, Available, InUndo.Shows;
    if vin != [] {
      var k := |vin| - 1;
      SpendAllShows(v, m, vin[..k]);
      if SpendAll(m, vin[..k]).Some? {
        var w, n := SpendAll(v, vin[..k]).value.0, SpendAll(m, vin[..k]).value.0;
        SpendAllWellFormed(m, vin[..k]);
        ShowsAvailable(w, n, vin[k]);
        if Available(n, vin[k]) { SpendInputShows(w, n, vin[k]); }
      }
    }
  }

  lemma {:induction false} UndoSpentAll(m: CoinMap, m': CoinMap, vin: seq<OutPoint>, spent: (CoinMap, seq<InUndo>),
                                        undos: seq<InUndo>)
    requires WellFormed(m) && SpendAll(m, vin) == Some(spent) && Shows(m', spent.0) && UndoShows(undos, spent.1)
    ensures |undos| == |vin| && UndoAll(m', vin, undos).1 && Shows(UndoAll(m', vin, undos).0, m)
    decreases |vin|
  {
    hide Shows, WellFormed, SpendInput, Available, UndoInput, InUndo.Shows;
    if vin != [] {
      var k := |vin| - 1;
      var before := SpendAll(m, vin[..k]).value;
      SpendAllWellFormed(m, vin[..k]);
      UndoSpentInput(before.0, m', vin[k], undos[k]);
      assert spent.1[..k] == before.1;
      UndoSpentAll(m, UndoInput(m', vin[k], undos[k]).0, vin[..k], before, undos[..k]);
    }
  }

  // ---------- transactions ----------

  function Record(tx: Transaction, nHeight: int): Coins {
    Coins(tx.IsCoinBase(), tx.vout, nHeight, tx.nVersion)
  }

  /** `UpdateCoins`: spends the inputs of an ordinary transaction, then adds its outputs. */
  function UpdateCoins(m: CoinMap, tx: Transaction, nHeight: int): Option<(CoinMap, seq<InUndo>)> {
    if tx.IsCoinBase() then Some((m[tx.txid := Record(tx, nHeight)], [])) else
      match SpendAll(m, tx.vin)
      case None => None
      case Some((m1, undos)) => Some((m1[tx.txid := Record(tx, nHeight)], undos))
  }

  predicate HaveInputs(m: CoinMap, tx: Transaction) {
    tx.IsCoinBase() || forall i | 0 <= i < |tx.vin| :: Available(m, tx.vin[i])
  }

  /** The running input total of `CheckInputs`; None when a coinbase is not mature at
      `nSpendHeight` or a value or the total leaves the money range. */
  function InputsValue(m: CoinMap, vin: seq<OutPoint>, nSpendHeight: int): Option<int> {
    if vin == [] then Some(0) else
      var o := vin[|vin| - 1];
      var nValue := OutputFor(m, o).nValue;
      match InputsValue(m, vin[..|vin| - 1], nSpendHeight)
      case None => None
      case Some(sum) =>
        if Immature(m, o, nSpendHeight) || !MoneyRange(nValue) || !MoneyRange(sum + nValue) then None
        else Some(sum + nValue)
  }

  predicate Immature(m: CoinMap, o: OutPoint, nSpendHeight: int) {
    o.hash in m && m[o.hash].fCoinBase && nSpendHeight - m[o.hash].nHeight < COINBASE_MATURITY
  }

  /** `CheckInputs` without the scripts: the fee, or None for any of its rejections. */
  function CheckInputs(m: CoinMap, tx: Transaction, nSpendHeight: int): Option<int> {
    if tx.IsCoinBase() then Some(0)
    else if !HaveInputs(m, tx) then None
    else match InputsValue(m, tx.vin, nSpendHeight)
         case None => None
         case Some(nValueIn) => if nValueIn < Value(tx.vout) then None else Some(nValueIn - Value(tx.vout))
  }

  /** The outcome of the transaction loop of `ConnectBlock` so far. */
  datatype Connected = Connected(coins: CoinMap, vtxundo: seq<seq<InUndo>>, nFees: int)

  function ConnectTxs(m: CoinMap, vtx: seq<Transaction>, nHeight: int): Option<Connected> {
    if vtx == [] then Some(Connected(m, [], 0)) else
      match ConnectTxs(m, vtx[..|vtx| - 1], nHeight)
      case None => None
      case Some(c) => ConnectTx(c, vtx[|vtx| - 1], nHeight)
  }

  function ConnectTx(c: Connected, tx: Transaction, nHeight: int): Option<Connected> {
    match (CheckInputs(c.coins, tx, nHeight), UpdateCoins(c.coins, tx, nHeight))
    case (Some(fee), Some((coins, undos))) =>
      Some(Connected(coins, if tx.IsCoinBase() then c.vtxundo else c.vtxundo + [undos], c.nFees + fee))
    case _ => None
  }

  /** Undoing one transaction: its own record goes first, then its inputs come back. */
  function RemoveOutputs(m: CoinMap, tx: Transaction, nHeight: int): (CoinMap, bool) {
    var outs := if tx.txid in m then m[tx.txid] else EMPTY_COINS;
    var expected := Record(tx, nHeight);
    var outs1 := if expected.nVersion < 0 then outs.(nVersion := expected.nVersion) else outs;
    (m[tx.txid := EMPTY_COINS], tx.txid in m && outs1 == expected)
  }

  /** The loop of `DisconnectBlock` over the first `|vtx|` transactions of a block, last
      first.  The coinbase has no undo data; None is "undo data inconsistent". */
  function DisconnectTxs(m: CoinMap, vtx: seq<Transaction>, vtxundo: seq<seq<InUndo>>, nHeight: int)
    : Option<(CoinMap, bool)>
    requires |vtx| > 0 ==> |vtxundo| + 1 == |vtx|
    decreases |vtx|
  {
    if vtx == [] then Some((m, true)) else
      var k := |vtx| - 1;
      var (m1, clean1) := RemoveOutputs(m, vtx[k], nHeight);
      if k == 0 then Some((m1, clean1))
      else if |vtxundo[k - 1]| != |vtx[k].vin| then None
      else
        var (m2, clean2) := UndoAll(m1, vtx[k].vin, vtxundo[k - 1]);
        match DisconnectTxs(m2, vtx[..k], vtxundo[..k - 1], nHeight)
        case None => None
        case Some((m3, clean3)) => Some((m3, clean1 && clean2 && clean3))
  }

  ghost predicate NoneLive(m: CoinMap, vtx: seq<Transaction>) {
    forall i | 0 <= i < |vtx| :: Live(m, vtx[i].txid).None?
  }

  lemma UpdateCoinsWellFormed(m: CoinMap, tx: Transaction, nHeight: int)
    requires WellFormed(m) && ValidTransaction(tx) && nHeight > 0 && UpdateCoins(m, tx, nHeight).Some?
    ensures WellFormed(UpdateCoins(m, tx, nHeight).value.0)
    ensures forall id: Txid | id != tx.txid && Live(m, id).None? :: Live(UpdateCoins(m, tx, nHeight).value.0, id).None?
    ensures Live(UpdateCoins(m, tx, nHeight).value.0, tx.txid) == Some(Record(tx, nHeight))
  {
    var m1 := if tx.IsCoinBase() then m else SpendAll(m, tx.vin).value.0;
    if !tx.IsCoinBase() { SpendAllWellFormed(m, tx.vin); }
    var m2 := m1[tx.txid := Record(tx, nHeight)];
    assert !tx.vout[0].IsNull();
    forall id: Txid | Live(m2, id).Some? ensures GoodRecord(m2[id]) {
      if id != tx.txid { assert Live(m1, id).Some?; }
    }
    forall id: Txid | id != tx.txid && Live(m, id).None? ensures Live(m2, id).None? {
      if Live(m1, id).Some? {
        SpendAllTouchesLive(m, tx.vin, id);
      }
    }
  }

  /** Spending never brings a record to life. */
  lemma {:induction false} SpendAllTouchesLive(m: CoinMap, vin: seq<OutPoint>, id: Txid)
    requires WellFormed(m) && SpendAll(m, vin).Some? && Live(SpendAll(m, vin).value.0, id).Some?
    ensures Live(m, id).Some?
  {
    var m1 := SpendAll(m, vin).value.0;
    var n :| 0 <= n < |m1[id].vout| && !m1[id].vout[n].IsNull();
    SpendAllWellFormed(m, vin);
    if vin != [] {
      var k := |vin| - 1;
      var m0 := SpendAll(m, vin[..k]).value.0;
      SpendAllWellFormed(m, vin[..k]);
      if id == vin[k].hash { assert Live(m0, id).Some?; }
      SpendAllTouchesLive(m, vin[..k], id);
    }
  }

  // ---------- blocks ----------

  /** The transactions of a valid block, or the first few of them. */
  ghost predicate BlockPrefix(vtx: seq<Transaction>) {
    && (forall i | 0 <= i < |vtx| :: ValidTransaction(vtx[i]) && (vtx[i].IsCoinBase() <==> i == 0))
    && UniqueTxids(vtx)
  }

  lemma ShorterPrefix(vtx: seq<Transaction>)
    requires BlockPrefix(vtx) && vtx != []
    ensures BlockPrefix(vtx[..|vtx| - 1])
  {
  }

  /** Connecting keeps the map well formed and leaves one undo entry for each transaction
      but the coinbase. */
  lemma {:induction false} ConnectTxsWellFormed(m: CoinMap, vtx: seq<Transaction>, nHeight: int)
    requires WellFormed(m) && BlockPrefix(vtx) && nHeight > 0 && ConnectTxs(m, vtx, nHeight).Some?
    ensures var c := ConnectTxs(m, vtx, nHeight).value;
            WellFormed(c.coins) && |c.vtxundo| == if vtx == [] then 0 else |vtx| - 1
  {
    if vtx != [] {
      var k := |vtx| - 1;
      ShorterPrefix(vtx);
      ConnectTxsWellFormed(m, vtx[..k], nHeight);
      UpdateCoinsWellFormed(ConnectTxs(m, vtx[..k], nHeight).value.coins, vtx[k], nHeight);
    }
  }

  /** Connecting brings no record to life but those of the block itself. */
  lemma {:induction false} ConnectTxsNoneLive(m: CoinMap, vtx: seq<Transaction>, nHeight: int, id: Txid)
    requires WellFormed(m) && BlockPrefix(vtx) && nHeight > 0 && ConnectTxs(m, vtx, nHeight).Some?
    requires Live(m, id).None? && forall i | 0 <= i < |vtx| :: vtx[i].txid != id
    ensures Live(ConnectTxs(m, vtx, nHeight).value.coins, id).None?
  {
    if vtx != [] {
      var k := |vtx| - 1;
      ShorterPrefix(vtx);
      ConnectTxsNoneLive(m, vtx[..k], nHeight, id);
      ConnectTxsWellFormed(m, vtx[..k], nHeight);
      UpdateCoinsWellFormed(ConnectTxs(m, vtx[..k], nHeight).value.coins, vtx[k], nHeight);
    }
  }

  ghost predicate ShowsConnected(v: Option<Connected>, c: Option<Connected>) {
    || (v.None? && c.None?)
    || (v.Some? && c.Some? && Shows(v.value.coins, c.value.coins)
        && UndosShow(v.value.vtxundo, c.value.vtxundo) && v.value.nFees == c.value.nFees)
  }

  lemma ShowsAvailable(v: CoinMap, m: CoinMap, o: OutPoint)
    requires Shows(v, m)
    ensures Available(v, o) <==> Available(m, o)
    ensures OutputFor(v, o) == OutputFor(m, o)
    ensures Available(m, o) ==> v[o.hash].Shows(m[o.hash])
  {
    assert Shown(Live(v, o.hash), Live(m, o.hash));
  }

  lemma {:induction false} InputsValueShows(v: CoinMap, m: CoinMap, vin: seq<OutPoint>, nHeight: int)
    requires Shows(v, m) && WellFormed(m) && forall i | 0 <= i < |vin| :: Available(m, vin[i])
    ensures InputsValue(v, vin, nHeight) == InputsValue(m, vin, nHeight)
  {
    if vin != [] {
      var o := vin[|vin| - 1];
      InputsValueShows(v, m, vin[..|vin| - 1], nHeight);
      ShowsAvailable(v, m, o);
      assert Live(m, o.hash).Some?;
    }
  }

  lemma CheckInputsShows(v: CoinMap, m: CoinMap, tx: Transaction, nHeight: int)
    requires Shows(v, m) && WellFormed(m)
    ensures CheckInputs(v, tx, nHeight) == CheckInputs(m, tx, nHeight)
  {
    hide Shows, WellFormed, Available;
    forall o: OutPoint ensures Available(v, o) <==> Available(m, o) { ShowsAvailable(v, m, o); }
    if HaveInputs(m, tx) && !tx.IsCoinBase() { InputsValueShows(v, m, tx.vin, nHeight); }
  }

  lemma AddShows(v: CoinMap, m: CoinMap, id: Txid, c: Coins)
    requires Shows(v, m)
    ensures Shows(v[id := c], m[id := c])
  {
    var w, n := v[id := c], m[id := c];
    forall k: Txid ensures Shown(Live(w, k), Live(n, k)) { assert Shown(Live(v, k), Live(m, k)); }
  }

  lemma ConnectTxShows(c: Connected, d: Connected, tx: Transaction, nHeight: int)
    requires ShowsConnected(Some(c), Some(d)) && WellFormed(d.coins)
    ensures ShowsConnected(ConnectTx(c, tx, nHeight), ConnectTx(d, tx, nHeight))
  {
    hide Shows, WellFormed, SpendAll, CheckInputs, UndoShows;
    CheckInputsShows(c.coins, d.coins, tx, nHeight);
    SpendAllShows(c.coins, d.coins, tx.vin);
    if tx.IsCoinBase() {
      AddShows(c.coins, d.coins, tx.txid, Record(tx, nHeight));
    } else if SpendAll(d.coins, tx.vin).Some? {
      AddShows(SpendAll(c.coins, tx.vin).value.0, SpendAll(d.coins, tx.vin).value.0, tx.txid, Record(tx, nHeight));
    }
  }

  /** Connecting sees only what is unspent: the verdict and the fees do not depend on how
      records are kept, and the coins and the undo data differ only in what storing loses. */
  lemma {:induction false} ConnectTxsShows(v: CoinMap, m: CoinMap, vtx: seq<Transaction>, nHeight: int)
    requires Shows(v, m) && WellFormed(m) && BlockPrefix(vtx) && nHeight > 0
    ensures ShowsConnected(ConnectTxs(v, vtx, nHeight), ConnectTxs(m, vtx, nHeight))
  {
    hide Shows, WellFormed, BlockPrefix, ConnectTx;
    if vtx != [] {
      var k := |vtx| - 1;
      ShorterPrefix(vtx);
      ConnectTxsShows(v, m, vtx[..k], nHeight);
      if ConnectTxs(m, vtx[..k], nHeight).Some? {
        ConnectTxsWellFormed(m, vtx[..k], nHeight);
        ConnectTxShows(ConnectTxs(v, vtx[..k], nHeight).value, ConnectTxs(m, vtx[..k], nHeight).value, vtx[k], nHeight);
      }
    }
  }

  lemma WellFormedShows(v: CoinMap, m: CoinMap)
    requires Shows(v, m) && WellFormed(m)
    ensures WellFormed(v)
  {
    forall id: Txid | Live(v, id).Some? ensures GoodRecord(v[id]) {
      assert Shown(Live(v, id), Live(m, id));
    }
  }

  /** The record of a transaction just connected is found as expected, if need be after its
      version is put right: a stored version may have lost bits only if it was negative. */
  lemma RemoveConnectedOutputs(s: CoinMap, m': CoinMap, tx: Transaction, nHeight: int)
    requires ValidTransaction(tx) && nHeight > 0 && Live(s, tx.txid).None? &&
             Shows(m', s[tx.txid := Record(tx, nHeight)])
    ensures var (m1, clean) := RemoveOutputs(m', tx, nHeight); clean && Shows(m1, s)
  {
    var m2 := s[tx.txid := Record(tx, nHeight)];
    assert !tx.vout[0].IsNull() && Shown(Live(m', tx.txid), Live(m2, tx.txid));
    forall id: Txid ensures Shown(Live(RemoveOutputs(m', tx, nHeight).0, id), Live(s, id)) {
      assert Shown(Live(m', id), Live(m2, id));
    }
  }

  /** What is known just before the last transaction is connected. */
  lemma {:induction false} BeforeLast(m: CoinMap, vtx: seq<Transaction>, nHeight: int)
    requires WellFormed(m) && BlockPrefix(vtx) && NoneLive(m, vtx) && nHeight > 0
    requires vtx != [] && ConnectTxs(m, vtx, nHeight).Some?
    ensures var k := |vtx| - 1; var c0 := ConnectTxs(m, vtx[..k], nHeight);
            && BlockPrefix(vtx[..k]) && NoneLive(m, vtx[..k])
            && c0.Some? && WellFormed(c0.value.coins) && Live(c0.value.coins, vtx[k].txid).None?
            && |c0.value.vtxundo| == (if k == 0 then 0 else k - 1)
  {
    var k, before := |vtx| - 1, vtx[..|vtx| - 1];
    ShorterPrefix(vtx);
    assert forall i | 0 <= i < k :: vtx[i].txid != vtx[k].txid;
    ConnectTxsWellFormed(m, before, nHeight);
    ConnectTxsNoneLive(m, before, nHeight, vtx[k].txid);
  }

  lemma {:induction false} UndoOneTx(c0: Connected, tx: Transaction, nHeight: int, c: Connected, m': CoinMap,
                                     undo: seq<InUndo>)
    requires WellFormed(c0.coins) && ValidTransaction(tx) && !tx.IsCoinBase() && Live(c0.coins, tx.txid).None? &&
             nHeight > 0
    requires ConnectTx(c0, tx, nHeight) == Some(c) && Shows(m', c.coins) && UndoShows(undo, c.vtxundo[|c0.vtxundo|])
    ensures |undo| == |tx.vin|
    ensures var (m1, clean1) := RemoveOutputs(m', tx, nHeight);
            var (m2, clean2) := UndoAll(m1, tx.vin, undo);
            clean1 && clean2 && Shows(m2, c0.coins)
  {
    hide Shows, WellFormed, ValidTransaction, RemoveOutputs, SpendAll, UndoAll, UndoShows, CheckInputs, Live;
    var spent := SpendAll(c0.coins, tx.vin).value;
    if Live(spent.0, tx.txid).Some? { SpendAllTouchesLive(c0.coins, tx.vin, tx.txid); }
    RemoveConnectedOutputs(spent.0, m', tx, nHeight);
    UndoSpentAll(c0.coins, RemoveOutputs(m', tx, nHeight).0, tx.vin, spent, undo);
  }

  lemma {:induction false} DisconnectCoinbase(m: CoinMap, vtx: seq<Transaction>, nHeight: int, c: Connected,
                                              m': CoinMap)
    requires WellFormed(m) && BlockPrefix(vtx) && NoneLive(m, vtx) && nHeight > 0 && |vtx| == 1
    requires ConnectTxs(m, vtx, nHeight) == Some(c) && Shows(m', c.coins)
    ensures c.vtxundo == []
    ensures var r := DisconnectTxs(m', vtx, [], nHeight);
            r.Some? && r.value.1 && Shows(r.value.0, m)
  {
    hide Shows;
    assert vtx[..0] == [];
    RemoveConnectedOutputs(m, m', vtx[0], nHeight);
  }

  /** Disconnecting the last transaction leads back to where it was connected. */
  lemma {:induction false} DisconnectLast(c0: Connected, vtx: seq<Transaction>, nHeight: int, c: Connected, m': CoinMap,
                                          undos: seq<seq<InUndo>>)
    returns (m2: CoinMap)
    requires |vtx| >= 2 && WellFormed(c0.coins) && |c0.vtxundo| == |vtx| - 2 && nHeight > 0
    requires ValidTransaction(vtx[|vtx| - 1]) && !vtx[|vtx| - 1].IsCoinBase() &&
             Live(c0.coins, vtx[|vtx| - 1].txid).None?
    requires ConnectTx(c0, vtx[|vtx| - 1], nHeight) == Some(c) && Shows(m', c.coins) && UndosShow(undos, c.vtxundo)
    ensures |undos| + 1 == |vtx| && Shows(m2, c0.coins) && UndosShow(undos[..|vtx| - 2], c0.vtxundo)
    ensures DisconnectTxs(m', vtx, undos, nHeight) == DisconnectTxs(m2, vtx[..|vtx| - 1], undos[..|vtx| - 2], nHeight)
  {
    hide Shows, WellFormed, ValidTransaction, RemoveOutputs, UndoAll, UndoShows, CheckInputs, UpdateCoins, Live;
    var k := |vtx| - 1;
    assert UndoShows(undos[k - 1], c.vtxundo[k - 1]);
    UndoOneTx(c0, vtx[k], nHeight, c, m', undos[k - 1]);
    m2 := UndoAll(RemoveOutputs(m', vtx[k], nHeight).0, vtx[k].vin, undos[k - 1]).0;
    assert c.vtxundo[..k - 1] == c0.vtxundo;
  }

  /** Disconnecting the transactions of a block that was connected to `m` is clean and
      gives `m` back, from any map that shows the connected one and with any undo data that
      shows the one produced, both stored or not. */
  lemma {:induction false} DisconnectConnectedTxs(m: CoinMap, vtx: seq<Transaction>, nHeight: int, c: Connected,
                                                  m': CoinMap, undos: seq<seq<InUndo>>)
    requires WellFormed(m) && BlockPrefix(vtx) && NoneLive(m, vtx) && nHeight > 0 && vtx != []
    requires ConnectTxs(m, vtx, nHeight) == Some(c) && Shows(m', c.coins) && UndosShow(undos, c.vtxundo)
    ensures |undos| + 1 == |vtx|
    ensures var r := DisconnectTxs(m', vtx, undos, nHeight);
            r.Some? && r.value.1 && Shows(r.value.0, m)
    decreases |vtx|
  {
    hide Shows, WellFormed, UndosShow, DisconnectTxs, ConnectTx;
    if |vtx| == 1 {
      DisconnectCoinbase(m, vtx, nHeight, c, m');
      NoUndos(undos, c.vtxundo);
    } else {
      BeforeLast(m, vtx, nHeight);
      var before := vtx[..|vtx| - 1];
      var c0 := ConnectTxs(m, before, nHeight).value;
      var m2 := DisconnectLast(c0, vtx, nHeight, c, m', undos);
      DisconnectConnectedTxs(m, before, nHeight, c0, m2, undos[..|vtx| - 2]);
    }
  }

  lemma NoUndos(v: seq<seq<InUndo>>, u: seq<seq<InUndo>>)
    requires UndosShow(v, u)
    ensures |v| == |u|
  {
  }

  /** The subsidy: a 64-bit shift, defined by C++ only for shift counts below 64. */
  function Subsidy(nHeight: nat): (r: nat)
    requires nHeight / 100_000 < 64
    ensures r <= 500 * COIN
  {
    Shr(500 * COIN, nHeight / 100_000)
  }

  function Shr(v: nat, n: nat): (r: nat)
    ensures r <= v
  {
    if n == 0 then v else Shr(v / 2, n - 1)
  }

  lemma Pow2Step(n: nat)
    ensures Pow2(n) == if n == 0 then 1 else 2 * Pow2(n - 1)
  {
  }

  lemma {:induction false} ShrIsQuotient(v: nat, n: nat)
    ensures Shr(v, n) == v / Pow2(n)
  {
    hide Pow2;
    Pow2Step(n);
    if n > 0 {
      ShrIsQuotient(v / 2, n - 1);
      HalfQuotient(v, Pow2(n - 1));
    }
  }

  lemma HalfQuotient(v: nat, p: nat)
    requires p > 0
    ensures v / 2 / p == v / (2 * p)
  {
    var half, q := v / 2, v / 2 / p;
    var product := q * p;
    QuotientBounds(half, p);
    Doubled(q, p);
    QuotientIs(v, 2 * p, q);
  }

  lemma Doubled(q: nat, p: nat)
    ensures q * (2 * p) == 2 * (q * p)
  {
  }

  /** `ConnectBlock` on the coins: the BIP 30 test, the transactions in order, and the
      coinbase limit.  None is a rejected block. */
  function ConnectBlock(m: CoinMap, block: Block, nHeight: nat): Option<Connected>
    requires nHeight / 100_000 < 64
  {
    if !ValidBlock(block) || exists i :: 0 <= i < |block.vtx| && Live(m, block.vtx[i].txid).Some? then None
    else
      match ConnectTxs(m, block.vtx, nHeight)
      case None => None
      case Some(c) => if Value(block.vtx[0].vout) > Subsidy(nHeight) + c.nFees then None else Some(c)
  }

  /** `DisconnectBlock` on the coins: the restored map and the clean flag. */
  function DisconnectBlock(m: CoinMap, block: Block, vtxundo: seq<seq<InUndo>>, nHeight: nat): Option<(CoinMap, bool)> {
    if |vtxundo| + 1 != |block.vtx| then None else DisconnectTxs(m, block.vtx, vtxundo, nHeight)
  }

  /** Disconnecting undoes connecting, cleanly, whatever the block spends of its own, however
      spent records were kept or dropped in between, and whichever records and undo entries
      were stored and read back. */
  lemma DisconnectInvertsConnect(m: CoinMap, block: Block, nHeight: nat, c: Connected, m': CoinMap,
                                 undos: seq<seq<InUndo>>)
    requires 0 < nHeight && nHeight / 100_000 < 64 && WellFormed(m)
    requires ConnectBlock(m, block, nHeight) == Some(c) && Shows(m', c.coins) && UndosShow(undos, c.vtxundo)
    ensures var r := DisconnectBlock(m', block, undos, nHeight);
            r.Some? && r.value.1 && Shows(r.value.0, m)
  {
    hide Shows, WellFormed, UndosShow, DisconnectTxs, ConnectTxs;
    DisconnectConnectedTxs(m, block.vtx, nHeight, c, m', undos);
  }

  lemma ConnectBlockWellFormed(m: CoinMap, block: Block, nHeight: nat)
    requires 0 < nHeight && nHeight / 100_000 < 64 && WellFormed(m) && ConnectBlock(m, block, nHeight).Some?
    ensures WellFormed(ConnectBlock(m, block, nHeight).value.coins)
  {
    ConnectTxsWellFormed(m, block.vtx, nHeight);
  }

  /** A map that shows another accepts the same blocks with the same fees; the coins
      afterwards and the undo data show those of the other. */
  lemma ConnectBlockShows(v: CoinMap, m: CoinMap, block: Block, nHeight: nat)
    requires Shows(v, m) && WellFormed(m) && 0 < nHeight && nHeight / 100_000 < 64
    ensures ShowsConnected(ConnectBlock(v, block, nHeight), ConnectBlock(m, block, nHeight))
  {
    hide WellFormed, ConnectTxs;
    forall id: Txid ensures Live(v, id).None? <==> Live(m, id).None? { assert Shown(Live(v, id), Live(m, id)); }
    if ValidBlock(block) { ConnectTxsShows(v, m, block.vtx, nHeight); }
  }

  /** Two maps with the same unspent outputs accept the same blocks, with the same undo
      data, and still have the same unspent outputs afterwards. */
  lemma ConnectBlockSame(a: CoinMap, b: CoinMap, block: Block, nHeight: nat)
    requires Same(a, b) && WellFormed(b) && 0 < nHeight && nHeight / 100_000 < 64
    ensures var (x, y) := (ConnectBlock(a, block, nHeight), ConnectBlock(b, block, nHeight));
            || (x.None? && y.None?)
            || (x.Some? && y.Some? && Same(x.value.coins, y.value.coins) && x.value.vtxundo == y.value.vtxundo
                && x.value.nFees == y.value.nFees)
  {
    hide Shows, Same, WellFormed, ConnectBlock, UndosShow;
    ShowsBothWays(a, b);
    ShowsBothWays(b, a);
    WellFormedShows(a, b);
    ConnectBlockShows(a, b, block, nHeight);
    ConnectBlockShows(b, a, block, nHeight);
    if ConnectBlock(a, block, nHeight).Some? {
      var x, y := ConnectBlock(a, block, nHeight).value, ConnectBlock(b, block, nHeight).value;
      ShowsBothWays(x.coins, y.coins);
      UndosBothWays(x.vtxundo, y.vtxundo);
    }
  }
}
