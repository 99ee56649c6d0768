/** What it means that `DisconnectBlock` reports clean: the coins and the undo data are those of the block
    connected to what is restored. */
module CleanUndo {
  import opened Wrappers
  import opened Coins
  import opened Blocks
  import opened Ledger

  /** An undo entry as spending makes it: only one that has a height carries the fields of a record. */
  predicate EntryOk(u: InUndo) {
    MoneyRange(u.txout.nValue) && u.nHeight >= 0 && (u.nHeight == 0 ==> !u.fCoinBase && u.nVersion == 0)
  }

  predicate EntriesOk(undos: seq<InUndo>) { forall i | 0 <= i < |undos| :: EntryOk(undos[i]) }

  /** Restoring one output of a record: `left` is what the map holds, nothing of it unspent if it is
      pruned.  The flag is set exactly when spending the output again gives the same back. */
  lemma UnspendIff(left: Coins, n: nat, u: InUndo)
    requires EntryOk(u) && (left.IsPruned() || GoodRecord(left))
    ensures var back := left.Unspend(n, u);
            && back.IsAvailable(n)
            && ((if u.nHeight != 0 then left.IsPruned() else !left.IsPruned() && !left.IsAvailable(n)) <==>
                  && GoodRecord(back) && back.Spend(n).1 == u
                  && (if back.Spend(n).0.IsPruned() then left.IsPruned() else back.Spend(n).0 == left))
  {
    var back := left.Unspend(n, u);
    assert back.vout[n] == u.txout && !u.txout.IsNull();
    if u.nHeight != 0 {
      RestoredAlone(left, n, u);
    } else if !left.IsPruned() && !left.IsAvailable(n) {
      RestoredBeside(left, n, u);
    }
  }

  /** The last output of a record comes back with the record. */
  lemma RestoredAlone(left: Coins, n: nat, u: InUndo)
    requires EntryOk(u) && u.nHeight != 0
    ensures var back := left.Unspend(n, u);
            GoodRecord(back) && back.IsAvailable(n) && back.Spend(n).1 == u && back.Spend(n).0.IsPruned()
  {
    var back := left.Unspend(n, u);
    assert |back.vout| == n + 1 && forall i | 0 <= i < n :: back.vout[i] == NULL_OUT;
    NothingElse(back.vout[n := NULL_OUT]);
  }

  lemma {:induction false} NothingElse(vout: seq<TxOut>)
    requires forall i | 0 <= i < |vout| :: vout[i].IsNull()
    ensures Trim(vout) == []
  {
    if vout != [] { NothingElse(vout[..|vout| - 1]); }
  }

  /** Any other output comes back beside those that are left. */
  lemma RestoredBeside(left: Coins, n: nat, u: InUndo)
    requires EntryOk(u) && u.nHeight == 0 && GoodRecord(left) && !left.IsPruned() && !left.IsAvailable(n)
    ensures var back := left.Unspend(n, u);
            GoodRecord(back) && back.IsAvailable(n) && back.Spend(n).1 == u && back.Spend(n).0 == left
  {
    var back := left.Unspend(n, u);
    var vout := back.vout[n := NULL_OUT];
    assert vout == Resize(left.vout, n + 1);
    TrimBack(left.vout, vout);
  }

  lemma {:induction false} TrimBack(vout: seq<TxOut>, longer: seq<TxOut>)
    requires vout != [] && !vout[|vout| - 1].IsNull() && |longer| >= |vout|
    requires forall i | 0 <= i < |longer| :: longer[i] == if i < |vout| then vout[i] else NULL_OUT
    ensures Trim(longer) == vout
    decreases |longer|
  {
    if |longer| > |vout| { TrimBack(vout, longer[..|longer| - 1]); } else { assert longer == vout; }
  }

  /** One turn of the restoring loop is clean exactly when it restores a sound record from which spending
      the output leads back, with the same undo entry. */
  lemma UndoInputIff(m: CoinMap, o: OutPoint, u: InUndo)
    requires WellFormed(m) && EntryOk(u)
    ensures var (back, clean) := UndoInput(m, o, u);
            && Available(back, o)
            && (clean <==> WellFormed(back) && SpendInput(back, o).1 == u && Same(SpendInput(back, o).0, m))
  {
    hide GoodRecord, EntryOk, Coins.Spend, Coins.Unspend;
    var left := if o.hash in m then m[o.hash] else EMPTY_COINS;
    if o.hash in m && !left.IsPruned() { assert Live(m, o.hash).Some?; }
    UnspendIff(left, o.n, u);
    var (back, clean) := UndoInput(m, o, u);
    var w := SpendInput(back, o).0;
    if clean {
      forall id: Txid ensures Live(w, id) == Live(m, id) {}
      forall id: Txid | Live(back, id).Some? ensures GoodRecord(back[id]) {
        if id != o.hash { assert Live(m, id).Some?; }
      }
    }
    if WellFormed(back) && SpendInput(back, o).1 == u && Same(w, m) {
      assert Live(back, o.hash).Some?;
      assert Live(w, o.hash) == Live(m, o.hash);
    }
  }

  /** The restoring loop over the inputs of one transaction is clean exactly when spending them all again
      leads back, with the same undo data. */
  lemma {:induction false} UndoAllIff(m: CoinMap, vin: seq<OutPoint>, undos: seq<InUndo>)
    requires WellFormed(m) && |undos| == |vin| && EntriesOk(undos)
    ensures var (back, clean) := UndoAll(m, vin, undos);
            clean <==> WellFormed(back) && SpendAll(back, vin).Some? && SpendAll(back, vin).value.1 == undos &&
                       Same(SpendAll(back, vin).value.0, m)
    decreases |vin|
  {
    hide WellFormed, Same, SpendInput, Available, UndoInput, EntryOk;
    var (back, clean) := UndoAll(m, vin, undos);
    if clean { UndoAllClean(m, vin, undos); }
    if WellFormed(back) && SpendAll(back, vin).Some? && SpendAll(back, vin).value.1 == undos &&
      Same(SpendAll(back, vin).value.0, m) {
      SameShows(SpendAll(back, vin).value.0, m);
      ShowsItself(undos);
      UndoSpentAll(back, m, vin, SpendAll(back, vin).value, undos);
    }
  }

  lemma ShowsItself(undos: seq<InUndo>)
    ensures UndoShows(undos, undos)
  {
  }

  lemma SameShows(a: CoinMap, b: CoinMap)
    requires Same(a, b)
    ensures Shows(a, b) && Shows(b, a) && Same(b, a)
  {
    ShowsBothWays(a, b);
  }

  lemma {:induction false} UndoAllClean(m: CoinMap, vin: seq<OutPoint>, undos: seq<InUndo>)
    requires WellFormed(m) && |undos| == |vin| && EntriesOk(undos) && UndoAll(m, vin, undos).1
    ensures var back := UndoAll(m, vin, undos).0;
            && WellFormed(back) && SpendAll(back, vin).Some? && SpendAll(back, vin).value.1 == undos
            && Same(SpendAll(back, vin).value.0, m)
    decreases |vin|
  {
    hide WellFormed, Same, SpendInput, Available, UndoInput, EntryOk;
    if vin == [] {
      SameItself(m);
    } else {
      var k := |vin| - 1;
      UndoInputIff(m, vin[k], undos[k]);
      var m1 := UndoInput(m, vin[k], undos[k]).0;
      UndoAllClean(m1, vin[..k], undos[..k]);
      var back := UndoAll(m, vin, undos).0;
      var x := SpendAll(back, vin[..k]).value.0;
      SpendSame(x, m1, vin[k]);
      SameTransitive(SpendInput(x, vin[k]).0, SpendInput(m1, vin[k]).0, m);
    }
  }

  lemma SameItself(m: CoinMap)
    ensures Same(m, m)
  {
  }

  lemma SameTransitive(a: CoinMap, b: CoinMap, c: CoinMap)
    requires Same(a, b) && Same(b, c)
    ensures Same(a, c)
  {
  }

  lemma SpendSame(a: CoinMap, b: CoinMap, o: OutPoint)
    requires Same(a, b) && Available(b, o)
    ensures Available(a, o) && SpendInput(a, o).1 == SpendInput(b, o).1
    ensures Same(SpendInput(a, o).0, SpendInput(b, o).0)
  {
    assert Live(a, o.hash) == Live(b, o.hash);
    var v, w := SpendInput(a, o).0, SpendInput(b, o).0;
    forall id: Txid ensures Live(v, id) == Live(w, id) { assert Live(a, id) == Live(b, id); }
  }

  /** Dropping the outputs of a transaction is clean exactly when all of them are still unspent, in a
      record that says what it should, but for a version that is negative. */
  lemma RemoveOutputsIff(m: CoinMap, tx: Transaction, nHeight: int)
    requires ValidTransaction(tx)
    ensures RemoveOutputs(m, tx, nHeight).1 <==>
      && tx.txid in m && m[tx.txid].vout == tx.vout && m[tx.txid].nHeight == nHeight
      && (m[tx.txid].fCoinBase <==> tx.vin == [OutPoint(0, 0xFFFF_FFFF)])
      && (tx.nVersion >= 0 ==> m[tx.txid].nVersion == tx.nVersion)
    ensures forall id | id != tx.txid :: Live(RemoveOutputs(m, tx, nHeight).0, id) == Live(m, id)
    ensures Live(RemoveOutputs(m, tx, nHeight).0, tx.txid).None?
  {
  }

  /** Connecting the transactions again, without any checks. */
  function Reapply(m: CoinMap, vtx: seq<Transaction>, nHeight: int): Option<(CoinMap, seq<seq<InUndo>>)> {
    if vtx == [] then Some((m, [])) else
      match Reapply(m, vtx[..|vtx| - 1], nHeight)
      case None => None
      case Some((x, undos)) =>
        match UpdateCoins(x, vtx[|vtx| - 1], nHeight)
        case None => None
        case Some((y, u)) => Some((y, if |vtx| == 1 then undos else undos + [u]))
  }

  /** Maps with the same unspent outputs, but for the version of records whose version is negative. */
  ghost predicate Matches(v: CoinMap, m: CoinMap) { forall id: Txid :: Matched(Live(v, id), Live(m, id)) }

  predicate Matched(x: Option<Coins>, c: Option<Coins>) {
    if c.None? then x.None? else
      x.Some? && c.value == x.value.(nVersion := if c.value.nVersion < 0 then c.value.nVersion else x.value.nVersion)
  }

  predicate UndoMatched(v: InUndo, u: InUndo) {
    u == v.(nVersion := if u.nVersion < 0 then u.nVersion else v.nVersion)
  }

  predicate UndosMatch(v: seq<InUndo>, u: seq<InUndo>) {
    |v| == |u| && forall i | 0 <= i < |u| :: UndoMatched(v[i], u[i])
  }

  predicate AllUndosMatch(v: seq<seq<InUndo>>, u: seq<seq<InUndo>>) {
    |v| == |u| && forall i | 0 <= i < |u| :: UndosMatch(v[i], u[i])
  }

  lemma SpendInputMatches(v: CoinMap, m: CoinMap, o: OutPoint)
    requires Matches(v, m)
    ensures Available(v, o) <==> Available(m, o)
    ensures Available(m, o) ==> UndoMatched(SpendInput(v, o).1, SpendInput(m, o).1)
    ensures Available(m, o) ==> Matches(SpendInput(v, o).0, SpendInput(m, o).0)
  {
    assert Matched(Live(v, o.hash), Live(m, o.hash));
    if Available(m, o) {
      assert Available(v, o);
      forall id: Txid ensures Matched(Live(SpendInput(v, o).0, id), Live(SpendInput(m, o).0, id)) {
        assert Matched(Live(v, id), Live(m, id));
      }
    }
  }

  lemma {:induction false} SpendAllMatches(v: CoinMap, m: CoinMap, vin: seq<OutPoint>)
    requires Matches(v, m)
    ensures SpendAll(v, vin).Some? <==> SpendAll(m, vin).Some?
    ensures SpendAll(m, vin).Some? ==> UndosMatch(SpendAll(v, vin).value.1, SpendAll(m, vin).value.1)
    ensures SpendAll(m, vin).Some? ==> Matches(SpendAll(v, vin).value.0, SpendAll(m, vin).value.0)
  {
    hide Matches, SpendInput, Available, UndoMatched;
    if vin != [] {
      var k := |vin| - 1;
      SpendAllMatches(v, m, vin[..k]);
      if SpendAll(m, vin[..k]).Some? {
        SpendInputMatches(SpendAll(v, vin[..k]).value.0, SpendAll(m, vin[..k]).value.0, vin[k]);
      }
    }
  }

  lemma MatchesSame(a: CoinMap, b: CoinMap, m: CoinMap)
    requires Same(a, b) && Matches(b, m)
    ensures Matches(a, m)
  {
    forall id: Txid ensures Matched(Live(a, id), Live(m, id)) {
      assert Live(a, id) == Live(b, id) && Matched(Live(b, id), Live(m, id));
    }
  }

  /** What is left after the outputs of a transaction went cleanly, and the record of the transaction,
      match what the outputs went from. */
  lemma OutputsBack(m: CoinMap, tx: Transaction, nHeight: int, x: CoinMap)
    requires ValidTransaction(tx) && RemoveOutputs(m, tx, nHeight).1 && Matches(RemoveOutputs(m, tx, nHeight).0, x)
    ensures Matches(m, x[tx.txid := Record(tx, nHeight)])
  {
    RemoveOutputsIff(m, tx, nHeight);
    var y, m1 := x[tx.txid := Record(tx, nHeight)], RemoveOutputs(m, tx, nHeight).0;
    assert !tx.vout[0].IsNull();
    forall id: Txid ensures Matched(Live(m, id), Live(y, id)) {
      if id != tx.txid { assert Live(m1, id) == Live(m, id) && Matched(Live(m1, id), Live(x, id)); }
    }
  }

  lemma CoinBaseAgain(m: CoinMap, tx: Transaction, nHeight: int)
    requires ValidTransaction(tx) && tx.IsCoinBase() && RemoveOutputs(m, tx, nHeight).1
    ensures var again := UpdateCoins(RemoveOutputs(m, tx, nHeight).0, tx, nHeight);
            again.Some? && Matches(m, again.value.0)
  {
    MatchesItself(RemoveOutputs(m, tx, nHeight).0);
    OutputsBack(m, tx, nHeight, RemoveOutputs(m, tx, nHeight).0);
  }

  /** The transaction done again on a map that matches the restored one. */
  lemma SpentAgain(m: CoinMap, tx: Transaction, nHeight: int, back: CoinMap, undos: seq<InUndo>, x: CoinMap)
    requires ValidTransaction(tx) && !tx.IsCoinBase() && RemoveOutputs(m, tx, nHeight).1 && Matches(back, x)
    requires SpendAll(back, tx.vin).Some? && SpendAll(back, tx.vin).value.1 == undos
    requires Same(SpendAll(back, tx.vin).value.0, RemoveOutputs(m, tx, nHeight).0)
    ensures var again := UpdateCoins(x, tx, nHeight);
            again.Some? && Matches(m, again.value.0) && UndosMatch(undos, again.value.1)
  {
    hide Matches, Same, ValidTransaction, RemoveOutputs, SpendAll;
    SpendAllMatches(back, x, tx.vin);
    var m1, spent, y := RemoveOutputs(m, tx, nHeight).0, SpendAll(back, tx.vin).value, SpendAll(x, tx.vin).value;
    SameBack(spent.0, m1);
    MatchesSame(m1, spent.0, y.0);
    OutputsBack(m, tx, nHeight, y.0);
  }

  lemma SameBack(a: CoinMap, b: CoinMap)
    requires Same(a, b)
    ensures Same(b, a)
  {
  }

  lemma NoUndosMatch()
    ensures AllUndosMatch([], [])
  {
  }

  lemma OneMoreUndo(v: seq<seq<InUndo>>, u: seq<seq<InUndo>>, x: seq<InUndo>, y: seq<InUndo>)
    requires AllUndosMatch(v, u) && UndosMatch(x, y)
    ensures AllUndosMatch(v + [x], u + [y])
  {
    hide UndosMatch;
  }

  lemma RemovedWellFormed(m: CoinMap, tx: Transaction, nHeight: int)
    requires WellFormed(m)
    ensures WellFormed(RemoveOutputs(m, tx, nHeight).0)
  {
    var m1 := RemoveOutputs(m, tx, nHeight).0;
    forall id: Txid | Live(m1, id).Some? ensures GoodRecord(m1[id]) { assert Live(m, id).Some?; }
  }

  /** A clean disconnection is the inverse of connecting: whatever coins and undo data it was called with,
      doing the transactions again on what it leaves spends only what is there and gives those coins and
      that undo data back, but for versions that are negative in the block. */
  lemma {:induction false} CleanIsConnected(m: CoinMap, vtx: seq<Transaction>, undos: seq<seq<InUndo>>, nHeight: int)
    requires WellFormed(m) && BlockPrefix(vtx) && vtx != [] && |undos| + 1 == |vtx|
    requires forall i | 0 <= i < |undos| :: EntriesOk(undos[i])
    requires DisconnectTxs(m, vtx, undos, nHeight).Some? && DisconnectTxs(m, vtx, undos, nHeight).value.1
    ensures var r := DisconnectTxs(m, vtx, undos, nHeight).value.0;
            && WellFormed(r) && Reapply(r, vtx, nHeight).Some? && Matches(m, Reapply(r, vtx, nHeight).value.0)
            && AllUndosMatch(undos, Reapply(r, vtx, nHeight).value.1)
    decreases |vtx|
  {
    hide WellFormed, Matches, Same, EntriesOk, AllUndosMatch, RemoveOutputs, ValidTransaction, UpdateCoins, SpendAll;
    hide UndoAll;
    var k, r := |vtx| - 1, DisconnectTxs(m, vtx, undos, nHeight).value.0;
    var m1 := RemoveOutputs(m, vtx[k], nHeight).0;
    RemovedWellFormed(m, vtx[k], nHeight);
    if k == 0 {
      assert Reapply(r, vtx[..0], nHeight) == Some((r, []));
      CoinBaseAgain(m, vtx[0], nHeight);
      assert AllUndosMatch(undos, []) by { assert undos == []; NoUndosMatch(); }
    } else {
      UndoAllClean(m1, vtx[k].vin, undos[k - 1]);
      var m2 := UndoAll(m1, vtx[k].vin, undos[k - 1]).0;
      ShorterPrefix(vtx);
      CleanIsConnected(m2, vtx[..k], undos[..k - 1], nHeight);
      var (x, before) := Reapply(r, vtx[..k], nHeight).value;
      SpentAgain(m, vtx[k], nHeight, m2, undos[k - 1], x);
      assert undos == undos[..k - 1] + [undos[k - 1]];
      OneMoreUndo(undos[..k - 1], before, undos[k - 1], UpdateCoins(x, vtx[k], nHeight).value.1);
    }
  }

  lemma MatchesItself(m: CoinMap)
    ensures Matches(m, m)
  {
  }
}
