/** Transactions, blocks and the checks that look at nothing else. */
module Blocks {
  import opened Wrappers
  import opened Coins

  const COIN := 100_000_000
  const MAX_MONEY := 100_000_000 * COIN
  const COINBASE_MATURITY := 10

  predicate MoneyRange(nValue: int) { 0 <= nValue <= MAX_MONEY }

  /** The txid is an opaque identifier; `vin` keeps the outpoints the inputs spend. */
  datatype Transaction = Transaction(txid: Txid, nVersion: int, vin: seq<OutPoint>, vout: seq<TxOut>) {
    predicate IsCoinBase() { |vin| == 1 && vin[0].IsNull() }
  }

  datatype Block = Block(vtx: seq<Transaction>)

  /** What a list of outputs is worth; null outputs are worth nothing. */
  function Value(vout: seq<TxOut>): int {
    if vout == [] then 0
    else Value(vout[..|vout| - 1]) + if vout[|vout| - 1].IsNull() then 0 else vout[|vout| - 1].nValue
  }

  predicate Distinct<T(==)>(s: seq<T>) { forall i, j | 0 <= i < j < |s| :: s[i] != s[j] }

  /** What `CheckTransaction` promises about outputs and inputs. */
  predicate ValidTransaction(tx: Transaction) {
    && tx.vin != [] && tx.vout != []
    && (forall i | 0 <= i < |tx.vout| :: MoneyRange(tx.vout[i].nValue))
    && MoneyRange(Value(tx.vout))
    && Distinct(tx.vin)
    && (tx.IsCoinBase() || forall i | 0 <= i < |tx.vin| :: !tx.vin[i].IsNull())
  }

  predicate UniqueTxids(vtx: seq<Transaction>) {
    forall i, j | 0 <= i < j < |vtx| :: vtx[i].txid != vtx[j].txid
  }

  /** What `CheckBlock` promises about the transactions of a block. */
  predicate ValidBlock(block: Block) {
    && block.vtx != [] && block.vtx[0].IsCoinBase()
    && (forall i | 1 <= i < |block.vtx| :: !block.vtx[i].IsCoinBase())
    && (forall i | 0 <= i < |block.vtx| :: ValidTransaction(block.vtx[i]))
    && UniqueTxids(block.vtx)
  }

  lemma {:induction false} ValueOfPrefix(vout: seq<TxOut>, k: nat)
    requires k <= |vout| && forall i | 0 <= i < |vout| :: vout[i].nValue >= 0
    ensures 0 <= Value(vout[..k]) <= Value(vout)
  {
    if k < |vout| {
      ValueOfPrefix(vout[..|vout| - 1], k);
      assert vout[..|vout| - 1][..k] == vout[..k];
    } else if k > 0 {
      ValueOfPrefix(vout[..k - 1], k - 1);
      assert vout[..k] == vout && vout[..k - 1][..k - 1] == vout[..k - 1];
    }
  }

  /** `CheckTransaction`: the running total stops at the first output that leaves the
      money range, so the 64-bit sum cannot overflow; a set finds repeated inputs. */
  method CheckTransaction(tx: Transaction) returns (ok: bool)
    ensures ok <==> ValidTransaction(tx)
  {
    if tx.vin == [] || tx.vout == [] { return false; }
    var nValueOut: int64 := 0;
    for i := 0 to |tx.vout|
      invariant forall k | 0 <= k < i :: MoneyRange(tx.vout[k].nValue)
      invariant nValueOut as int == Value(tx.vout[..i]) && MoneyRange(nValueOut as int)
    {
      if tx.vout[i].nValue < 0 || tx.vout[i].nValue > MAX_MONEY { return false; }
      assert tx.vout[..i + 1][..i] == tx.vout[..i];
      nValueOut := nValueOut + tx.vout[i].nValue as int64;
      if !MoneyRange(nValueOut as int) {
        if forall k | 0 <= k < |tx.vout| :: MoneyRange(tx.vout[k].nValue) { ValueOfPrefix(tx.vout, i + 1); }
        return false;
      }
    }
    assert tx.vout[..|tx.vout|] == tx.vout;
    var vInOutPoints: set<OutPoint> := {};
    for i := 0 to |tx.vin|
      invariant vInOutPoints == set k | 0 <= k < i :: tx.vin[k]
      invariant forall k, l | 0 <= k < l < i :: tx.vin[k] != tx.vin[l]
    {
      if tx.vin[i] in vInOutPoints { return false; }
      vInOutPoints := vInOutPoints + {tx.vin[i]};
    }
    if !tx.IsCoinBase() {
      for i := 0 to |tx.vin|
        invariant forall k | 0 <= k < i :: !tx.vin[k].IsNull()
      {
        if tx.vin[i].IsNull() { return false; }
      }
    }
    ok := true;
  }

  /** `CheckBlock`'s duplicate test: the set of txids is as large as the block. */
  method AllTxidsUnique(vtx: seq<Transaction>) returns (ok: bool)
    ensures ok <==> UniqueTxids(vtx)
  {
    var uniqueTx: set<Txid> := {};
    for i := 0 to |vtx|
      invariant forall id :: id in uniqueTx <==> exists k :: 0 <= k < i && vtx[k].txid == id
      invariant |uniqueTx| <= i
      invariant |uniqueTx| == i <==> UniqueTxids(vtx[..i])
    {
      assert UniqueTxids(vtx[..i + 1]) <==> UniqueTxids(vtx[..i]) && vtx[i].txid !in uniqueTx by {
        assert forall k | 0 <= k < i :: vtx[..i + 1][k] == vtx[..i][k];
      }
      uniqueTx := uniqueTx + {vtx[i].txid};
    }
    assert vtx[..|vtx|] == vtx;
    ok := |uniqueTx| == |vtx|;
  }

  /** `CheckBlock` on the transactions. */
  method CheckBlock(block: Block) returns (ok: bool)
    ensures ok <==> ValidBlock(block)
  {
    var vtx := block.vtx;
    if vtx == [] || !vtx[0].IsCoinBase() { return false; }
    for i := 1 to |vtx|
      invariant forall k | 1 <= k < i :: !vtx[k].IsCoinBase()
    {
      if vtx[i].IsCoinBase() { return false; }
    }
    for i := 0 to |vtx|
      invariant forall k | 0 <= k < i :: ValidTransaction(vtx[k])
    {
      var good := CheckTransaction(vtx[i]);
      if !good { return false; }
    }
    ok := AllTxidsUnique(vtx);
  }
}
