/** The total value of the unspent coins: how spending, transactions and blocks change it,
    and why it stays below `MAX_MONEY`. */
module Money {
  import opened Wrappers
  import opened Coins
  import opened Blocks
  import opened Ledger

  ghost function Total(m: CoinMap): int {
    if m == map[] then 0 else
      var id :| id in m;
      Value(m[id].vout) + Total(m - {id})
  }

  lemma {:induction false} TotalWithout(m: CoinMap, id: Txid)
    requires id in m
    ensures Total(m) == Value(m[id].vout) + Total(m - {id})
    decreases |m|
  {
    var pick :| pick in m && Total(m) == Value(m[pick].vout) + Total(m - {pick});
    if pick != id {
      TotalWithout(m - {pick}, id);
      TotalWithout(m - {id}, pick);
      assert m - {pick} - {id} == m - {id} - {pick};
    }
  }

  lemma TotalUpdate(m: CoinMap, id: Txid, c: Coins)
    ensures Total(m[id := c]) == Total(m) - (if id in m then Value(m[id].vout) else 0) + Value(c.vout)
  {
    TotalWithout(m[id := c], id);
    if id in m {
      TotalWithout(m, id);
      assert m[id := c] - {id} == m - {id};
    } else {
      assert m[id := c] - {id} == m;
    }
  }

  lemma {:induction false} ValueOfNulls(vout: seq<TxOut>)
    requires forall i | 0 <= i < |vout| :: vout[i].IsNull()
    ensures Value(vout) == 0
  {
    if vout != [] { ValueOfNulls(vout[..|vout| - 1]); }
  }

  lemma TotalDrop(m: CoinMap, id: Txid)
    ensures Total(m) == Total(m - {id}) + match Live(m, id) case None => 0 case Some(c) => Value(c.vout)
  {
    if id in m {
      TotalWithout(m, id);
      if Live(m, id).None? { ValueOfNulls(m[id].vout); }
    } else {
      assert m - {id} == m;
    }
  }

  /** The total is a function of the unspent outputs alone, however their records are kept. */
  lemma {:induction false} TotalShows(v: CoinMap, m: CoinMap)
    requires Shows(v, m)
    ensures Total(v) == Total(m)
    decreases |v| + |m|
  {
    if v != map[] || m != map[] {
      var id :| id in v || id in m;
      TotalDrop(v, id);
      TotalDrop(m, id);
      assert Shown(Live(v, id), Live(m, id));
      ShowsWithout(v, m, id);
      SmallerWithout(v, id);
      SmallerWithout(m, id);
      TotalShows(v - {id}, m - {id});
    }
  }

  lemma ShowsWithout(v: CoinMap, m: CoinMap, id: Txid)
    requires Shows(v, m)
    ensures Shows(v - {id}, m - {id})
  {
    var w, n := v - {id}, m - {id};
    forall k: Txid ensures Shown(Live(w, k), Live(n, k)) { assert Shown(Live(v, k), Live(m, k)); }
  }

  lemma SmallerWithout(m: CoinMap, id: Txid)
    ensures |m - {id}| == if id in m then |m| - 1 else |m|
  {
  }

  lemma {:induction false} ValueUpdate(vout: seq<TxOut>, n: nat)
    requires n < |vout| && !vout[n].IsNull()
    ensures Value(vout[n := NULL_OUT]) == Value(vout) - vout[n].nValue
  {
    var k := |vout| - 1;
    if n < k {
      ValueUpdate(vout[..k], n);
      assert vout[n := NULL_OUT][..k] == vout[..k][n := NULL_OUT];
    } else {
      assert vout[n := NULL_OUT][..k] == vout[..k];
    }
  }

  lemma {:induction false} ValueTrim(vout: seq<TxOut>)
    ensures Value(Trim(vout)) == Value(vout)
  {
    if |vout| > 0 && vout[|vout| - 1].IsNull() { ValueTrim(vout[..|vout| - 1]); }
  }

  lemma SpendInputTotal(m: CoinMap, o: OutPoint)
    requires Available(m, o)
    ensures Total(SpendInput(m, o).0) == Total(m) - OutputFor(m, o).nValue
  {
    var c := m[o.hash];
    ValueUpdate(c.vout, o.n);
    ValueTrim(c.vout[o.n := NULL_OUT]);
    TotalUpdate(m, o.hash, c.Spend(o.n).0);
  }

  /** What a list of inputs is worth in a view, without range checks (`GetValueIn`). */
  function ValueIn(m: CoinMap, vin: seq<OutPoint>): int {
    if vin == [] then 0 else ValueIn(m, vin[..|vin| - 1]) + OutputFor(m, vin[|vin| - 1]).nValue
  }

  lemma {:induction false} SpendAllTotal(m: CoinMap, vin: seq<OutPoint>)
    requires WellFormed(m) && Distinct(vin) && SpendAll(m, vin).Some?
    ensures Total(SpendAll(m, vin).value.0) == Total(m) - ValueIn(m, vin)
  {
    if vin != [] {
      var k := |vin| - 1;
      SpendAllTotal(m, vin[..k]);
      SpendAllWellFormed(m, vin[..k]);
      SpendInputTotal(SpendAll(m, vin[..k]).value.0, vin[k]);
    }
  }

  lemma {:induction false} InputsValueIsValueIn(m: CoinMap, vin: seq<OutPoint>, nHeight: int)
    requires InputsValue(m, vin, nHeight).Some?
    ensures InputsValue(m, vin, nHeight).value == ValueIn(m, vin)
  {
    if vin != [] { InputsValueIsValueIn(m, vin[..|vin| - 1], nHeight); }
  }

  lemma {:induction false} ValueNonnegative(vout: seq<TxOut>)
    requires forall i | 0 <= i < |vout| && !vout[i].IsNull() :: vout[i].nValue >= 0
    ensures Value(vout) >= 0
  {
    if vout != [] { ValueNonnegative(vout[..|vout| - 1]); }
  }

  lemma {:induction false} TotalNonnegative(m: CoinMap)
    requires WellFormed(m)
    ensures Total(m) >= 0
    decreases |m|
  {
    if m != map[] {
      var id :| id in m;
      TotalWithout(m, id);
      if Live(m, id).Some? { ValueNonnegative(m[id].vout); } else { ValueOfNulls(m[id].vout); }
      forall k: Txid | Live(m - {id}, k).Some? ensures GoodRecord((m - {id})[k]) { assert Live(m, k).Some?; }
      TotalNonnegative(m - {id});
    }
  }

  /** Distinct available inputs are worth at most all the money there is, and so is every
      prefix of them: the unchecked sum of `GetValueIn` cannot overflow. */
  lemma ValueInBounded(m: CoinMap, vin: seq<OutPoint>)
    requires WellFormed(m) && Distinct(vin) && forall i | 0 <= i < |vin| :: Available(m, vin[i])
    ensures 0 <= ValueIn(m, vin) <= Total(m)
  {
    SpendAllSucceeds(m, vin);
    SpendAllTotal(m, vin);
    SpendAllWellFormed(m, vin);
    TotalNonnegative(SpendAll(m, vin).value.0);
    ValueInNonnegative(m, vin);
  }

  lemma {:induction false} ValueInNonnegative(m: CoinMap, vin: seq<OutPoint>)
    requires WellFormed(m) && forall i | 0 <= i < |vin| :: Available(m, vin[i])
    ensures ValueIn(m, vin) >= 0
  {
    if vin != [] {
      ValueInNonnegative(m, vin[..|vin| - 1]);
      assert Live(m, vin[|vin| - 1].hash).Some?;
    }
  }

  /** Unspent coins plus fees collected so far: only the coinbase adds to it. */
  lemma {:induction false} ConnectTxsTotal(m: CoinMap, vtx: seq<Transaction>, nHeight: int)
    requires WellFormed(m) && BlockPrefix(vtx) && NoneLive(m, vtx) && nHeight > 0 && ConnectTxs(m, vtx, nHeight).Some?
    ensures var c := ConnectTxs(m, vtx, nHeight).value;
            && c.nFees >= 0
            && Total(c.coins) + c.nFees == Total(m) + if vtx == [] then 0 else Value(vtx[0].vout)
    decreases |vtx|
  {
    if vtx != [] {
      BeforeLast(m, vtx, nHeight);
      ConnectTxsTotal(m, vtx[..|vtx| - 1], nHeight);
      ConnectTxTotal(ConnectTxs(m, vtx[..|vtx| - 1], nHeight).value, vtx[|vtx| - 1], nHeight);
    }
  }

  lemma ConnectTxTotal(c: Connected, tx: Transaction, nHeight: int)
    requires WellFormed(c.coins) && ValidTransaction(tx) && Live(c.coins, tx.txid).None?
    requires ConnectTx(c, tx, nHeight).Some?
    ensures var d := ConnectTx(c, tx, nHeight).value;
            && d.nFees >= c.nFees
            && Total(d.coins) + d.nFees == Total(c.coins) + c.nFees + if tx.IsCoinBase() then Value(tx.vout) else 0
  {
    var s := if tx.IsCoinBase() then c.coins else SpendAll(c.coins, tx.vin).value.0;
    if !tx.IsCoinBase() {
      SpendAllTotal(c.coins, tx.vin);
      InputsValueIsValueIn(c.coins, tx.vin, nHeight);
      if Live(s, tx.txid).Some? { SpendAllTouchesLive(c.coins, tx.vin, tx.txid); }
    }
    TotalUpdate(s, tx.txid, Record(tx, nHeight));
    if tx.txid in s { ValueOfNulls(s[tx.txid].vout); }
  }

  /** A connected block adds at most the subsidy of its height to the money in circulation. */
  lemma ConnectBlockTotal(m: CoinMap, block: Block, nHeight: nat)
    requires WellFormed(m) && 0 < nHeight && nHeight / 100_000 < 64 && ConnectBlock(m, block, nHeight).Some?
    ensures Total(ConnectBlock(m, block, nHeight).value.coins) <= Total(m) + Subsidy(nHeight)
  {
    ConnectTxsTotal(m, block.vtx, nHeight);
  }

  /** Everything the blocks at heights 1 to nHeight may create. */
  ghost function SubsidySum(nHeight: nat): nat
    requires nHeight / 100_000 < 64
  {
    if nHeight == 0 then 0 else SubsidySum(nHeight - 1) + Subsidy(nHeight)
  }

  lemma {:induction false} ShrHalves(v: nat, n: nat)
    ensures 2 * Shr(v, n + 1) <= Shr(v, n)
  {
    if n > 0 { ShrHalves(v / 2, n - 1); }
  }

  lemma {:induction false} ShrFalls(v: nat, m: nat, n: nat)
    requires m <= n
    ensures Shr(v, n) <= Shr(v, m)
  {
    if m < n {
      ShrFalls(v, m, n - 1);
      ShrHalves(v, n - 1);
    }
  }

  /** The subsidy never rises, and from each era to the next at least halves. */
  lemma SubsidyFalls(h: nat, nHeight: nat)
    requires h / 100_000 < 64 && nHeight / 100_000 < 64
    ensures h <= nHeight ==> Subsidy(nHeight) <= Subsidy(h)
    ensures h / 100_000 < nHeight / 100_000 ==> 2 * Subsidy(nHeight) <= Subsidy(h)
  {
    var m, n := h / 100_000, nHeight / 100_000;
    if m <= n { ShrFalls(500 * COIN, m, n); }
    if m < n {
      ShrHalves(500 * COIN, n - 1);
      ShrFalls(500 * COIN, m, n - 1);
    }
  }

  /** The subsidy ends for good after 36 halvings, and not before. */
  lemma SubsidyEnds(nHeight: nat)
    requires nHeight / 100_000 < 64
    ensures Subsidy(nHeight) == 0 <==> nHeight >= 3_600_000
  {
    hide Shr, Pow2;
    ShrIsQuotient(500 * COIN, 35);
    ShrIsQuotient(500 * COIN, 36);
    PowersOfTwo();
    if nHeight >= 3_600_000 { SubsidyFalls(3_600_000, nHeight); } else { SubsidyFalls(nHeight, 3_599_999); }
  }

  lemma PowersOfTwo()
    ensures Pow2(35) == 0x8_0000_0000 && Pow2(36) == 0x10_0000_0000
  {
    assert Pow2(12) == 0x1000;
    assert Pow2(24) == 0x100_0000;
  }

  lemma {:induction false} SubsidySumByEras(nHeight: nat)
    requires nHeight / 100_000 < 64
    ensures SubsidySum(nHeight) + 500 * COIN
            <= 100_000 * (1000 * COIN - 2 * Subsidy(nHeight)) + (nHeight % 100_000 + 1) * Subsidy(nHeight)
  {
    hide Subsidy;
    if nHeight == 0 {
      FirstSubsidy();
    } else {
      SubsidySumByEras(nHeight - 1);
      SubsidyFalls(nHeight - 1, nHeight);
      EraOf(nHeight);
      SumSteps((nHeight - 1) % 100_000, Subsidy(nHeight - 1), Subsidy(nHeight));
    }
  }

  lemma FirstSubsidy()
    ensures Subsidy(0) == 500 * COIN
  {
  }

  /** A block is the first of its era, or has the subsidy of the one before it. */
  lemma EraOf(nHeight: nat)
    requires nHeight > 0 && nHeight / 100_000 < 64
    ensures var r := (nHeight - 1) % 100_000;
            if nHeight % 100_000 == 0 then r == 99_999 && (nHeight - 1) / 100_000 < nHeight / 100_000
            else nHeight % 100_000 == r + 1 && Subsidy(nHeight) == Subsidy(nHeight - 1)
  {
    hide Shr;
    var era, r := (nHeight - 1) / 100_000, (nHeight - 1) % 100_000;
    assert nHeight == 100_000 * era + (r + 1);
  }

  lemma SumSteps(r: nat, s: nat, t: nat)
    ensures 2 * t <= s && r == 99_999 ==>
              100_000 * (1000 * COIN - 2 * s) + (r + 1) * s + t <= 100_000 * (1000 * COIN - 2 * t) + t
    ensures (r + 2) * s == (r + 1) * s + s
  {
  }

  /** All subsidies together stay below `MAX_MONEY` by at least the first subsidy: the
      genesis coinbase is never spendable. */
  lemma SubsidiesBelowMaxMoney(nHeight: nat)
    requires nHeight / 100_000 < 64
    ensures SubsidySum(nHeight) <= MAX_MONEY - 500 * COIN
  {
    SubsidySumByEras(nHeight);
    EraFits(nHeight % 100_000, Subsidy(nHeight));
  }

  lemma EraFits(r: nat, s: nat)
    requires r < 100_000
    ensures 100_000 * (1000 * COIN - 2 * s) + (r + 1) * s <= MAX_MONEY
  {
  }
}
