/** `CCoins`: the record of the outputs of one transaction that are still unspent,
    and the undo entry produced when one of them is spent. */
module Coins {
  import opened Wrappers
  import VarInt

  type Txid = nat
  type Script = seq<byte>

  const NULL_OUTPUT_INDEX: uint32 := 0xFFFF_FFFF

  datatype OutPoint = OutPoint(hash: Txid, n: uint32) {
    predicate IsNull() { hash == 0 && n == NULL_OUTPUT_INDEX }
  }

  /** The null output has value -1, whatever its script. */
  datatype TxOut = TxOut(nValue: int, scriptPubKey: Script) {
    predicate IsNull() { nValue == -1 }
  }

  const NULL_OUT := TxOut(-1, [])

  datatype InUndo = InUndo(txout: TxOut, fCoinBase: bool, nHeight: int, nVersion: int) {
    /** What an entry reads back as from the undo file: the version is written beside a
        height only, and a negative one loses all but seven bits. */
    function StoredForm(): InUndo {
      this.(nVersion := if nHeight > 0 then VarInt.Stored(nVersion) else 0)
    }

    /** The entry itself, or what is left of it after it was stored. */
    predicate Shows(u: InUndo) { this == u || this == u.StoredForm() }
  }

  datatype Coins = Coins(fCoinBase: bool, vout: seq<TxOut>, nHeight: int, nVersion: int) {
    predicate IsAvailable(nPos: nat) {
      nPos < |vout| && !vout[nPos].IsNull()
    }

    predicate IsPruned() {
      forall i | 0 <= i < |vout| :: vout[i].IsNull()
    }

    /** `Cleanup` has nothing left to do, and spent outputs are what `SetNull` leaves. */
    predicate IsClean() {
      && (|vout| > 0 ==> !vout[|vout| - 1].IsNull())
      && forall i | 0 <= i < |vout| && vout[i].IsNull() :: vout[i] == NULL_OUT
    }

    /** What a record reads back as from the database: negative integers lose all but seven
        bits. */
    function StoredForm(): Coins {
      this.(nVersion := VarInt.Stored(nVersion), nHeight := VarInt.Stored(nHeight))
    }

    /** The record itself, or what is left of it after it was stored. */
    predicate Shows(c: Coins) { this == c || this == c.StoredForm() }

    /** `Spend`: takes output n out of the record.  Only when that empties the record
        does the undo entry also carry the record's own fields. */
    function Spend(n: nat): (r: (Coins, InUndo))
      requires IsAvailable(n)
    {
      var left := Trim(vout[n := NULL_OUT]);
      (this.(vout := left),
       if left == [] then InUndo(vout[n], fCoinBase, nHeight, nVersion) else InUndo(vout[n], false, 0, 0))
    }

    /** The part of `DisconnectBlock` that puts output n back. */
    function Unspend(n: nat, undo: InUndo): Coins {
      var c := if undo.nHeight != 0 then Coins(undo.fCoinBase, [], undo.nHeight, undo.nVersion) else this;
      c.(vout := Resize(c.vout, n + 1)[n := undo.txout])
    }
  }

  const EMPTY_COINS := Coins(false, [], 0, 0)

  /** The outputs without the null ones at the end. */
  function Trim(vout: seq<TxOut>): (r: seq<TxOut>)
    ensures |r| <= |vout| && r == vout[..|r|]
    ensures |r| > 0 ==> !r[|r| - 1].IsNull()
    ensures forall i | |r| <= i < |vout| :: vout[i].IsNull()
  {
    if |vout| > 0 && vout[|vout| - 1].IsNull() then Trim(vout[..|vout| - 1]) else vout
  }

  /** The growing half of `vector::resize`: never shrinks. */
  function Resize(vout: seq<TxOut>, size: nat): (r: seq<TxOut>)
    ensures |r| == if |vout| < size then size else |vout|
    ensures forall i | 0 <= i < |r| :: r[i] == if i < |vout| then vout[i] else NULL_OUT
  {
    if |vout| < size then vout + seq(size - |vout|, _ => NULL_OUT) else vout
  }

  /** `CCoins::Cleanup`: pops null outputs off the end. */
  method Cleanup(c: Coins) returns (r: Coins)
    ensures r == c.(vout := Trim(c.vout))
    ensures forall n: nat :: r.IsAvailable(n) <==> c.IsAvailable(n)
  {
    var vout := c.vout;
    while |vout| > 0 && vout[|vout| - 1].IsNull()
      invariant Trim(vout) == Trim(c.vout)
    {
      vout := vout[..|vout| - 1];
    }
    r := c.(vout := vout);
  }

  /** `CCoins::Spend`, with its two error returns. */
  method SpendCoins(c: Coins, n: nat) returns (ok: bool, r: Coins, undo: InUndo)
    ensures ok <==> c.IsAvailable(n)
    ensures ok ==> (r, undo) == c.Spend(n)
    ensures !ok ==> r == c
  {
    r, undo := c, InUndo(NULL_OUT, false, 0, 0);
    if n >= |c.vout| { return false, r, undo; }
    if c.vout[n].IsNull() { return false, r, undo; }
    undo := undo.(txout := c.vout[n]);
    r := Cleanup(c.(vout := c.vout[n := NULL_OUT]));
    if |r.vout| == 0 {
      undo := undo.(nHeight := c.nHeight, fCoinBase := c.fCoinBase, nVersion := c.nVersion);
    }
    ok := true;
  }

  /** Spending output n removes exactly that output and touches no other. */
  lemma SpendRemovesOne(c: Coins, n: nat)
    requires c.IsAvailable(n) && c.IsClean()
    ensures var left := c.Spend(n).0;
            && left.IsClean()
            && (forall k: nat :: left.IsAvailable(k) <==> k != n && c.IsAvailable(k))
            && (forall k: nat | left.IsAvailable(k) :: left.vout[k] == c.vout[k])
            && (left.IsPruned() <==> left.vout == [])
  {
  }

  /** The undo entry puts the record back bit for bit, whether or not it was emptied. */
  lemma SpendUnspend(c: Coins, n: nat)
    requires c.IsAvailable(n) && c.IsClean() && c.nHeight != 0
    ensures var (left, undo) := c.Spend(n);
            (undo.nHeight != 0 <==> left.vout == []) && left.Unspend(n, undo) == c
  {
  }
}
