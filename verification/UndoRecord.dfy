/** The stored form of an undo entry: height and coinbase flag in one number, the version only for an
    entry that has a height, then the output. */
module UndoRecord {
  import opened Wrappers
  import opened Coins
  import opened VarInt
  import opened CoinsRecord
  import Amount

  /** An entry whose height leaves room for the flag in 32 bits. */
  predicate Writable(u: InUndo) {
    0 <= u.nHeight < 0x8000_0000 && Int32.Fits(u.nVersion) && StorableOut(u.txout)
  }

  function UndoBytes(curve: Curve, u: InUndo): seq<byte>
    requires 0 <= u.nHeight
  {
    VarBytes(u.nHeight * 2 + if u.fCoinBase then 1 else 0) +
      ((if u.nHeight > 0 then VarBytes(Stored(u.nVersion)) else []) + TxOutBytes(curve, u.txout))
  }

  /** Reading into a fresh entry, whose version is zero. */
  function ParseUndo(curve: Curve, s: seq<byte>): Option<Parsed<InUndo>> {
    match ParseVarInt(Uint32, s, 0)
    case None => None
    case Some(k) =>
      var nHeight := k.value / 2;
      match if nHeight > 0 then ParseVarInt(Int32, k.rest, 0) else Some(Parsed(0, k.rest))
      case None => None
      case Some(v) =>
        match ParseTxOut(curve, v.rest)
        case None => None
        case Some(o) => Some(Parsed(InUndo(o.value, k.value % 2 == 1, nHeight, v.value), o.rest))
  }

  /** An entry is read back in its stored form, whatever its version, with the bytes after it
      untouched.  It is the same entry exactly when its version survives: not negative, and zero when
      there is no height to write it beside. */
  lemma UndoRoundTrip(curve: Curve, u: InUndo, rest: seq<byte>)
    requires curve.Lawful() && Writable(u)
    ensures ParseUndo(curve, UndoBytes(curve, u) + rest) == Some(Parsed(u.StoredForm(), rest))
    ensures u.StoredForm() == u <==> if u.nHeight > 0 then u.nVersion >= 0 else u.nVersion == 0
  {
    hide ParseVarInt, VarBytes, ParseTxOut, TxOutBytes, Curve.Lawful, StorableOut;
    var code := u.nHeight * 2 + if u.fCoinBase then 1 else 0;
    var out := TxOutBytes(curve, u.txout);
    TxOutRoundTrip(curve, u.txout, rest);
    if u.nHeight > 0 {
      var version := VarBytes(Stored(u.nVersion));
      assert UndoBytes(curve, u) + rest == VarBytes(code) + (version + (out + rest));
      RoundTrip(Uint32, code, version + (out + rest));
      RoundTrip(Int32, u.nVersion, out + rest);
    } else {
      assert UndoBytes(curve, u) + rest == VarBytes(code) + (out + rest);
      RoundTrip(Uint32, code, out + rest);
    }
  }

  /** What `Spend` leaves behind is such an entry, and it is read back unchanged unless it carries a
      negative version, which it does only when the spent record was emptied. */
  lemma SpentUndoRoundTrips(curve: Curve, c: Coins, n: nat, rest: seq<byte>)
    requires curve.Lawful() && Storable(c) && c.IsAvailable(n) && c.nHeight > 0
    ensures var u := c.Spend(n).1;
            && ParseUndo(curve, UndoBytes(curve, u) + rest) == Some(Parsed(u.StoredForm(), rest))
            && (u.StoredForm() == u <==> c.Spend(n).0.vout != [] || c.nVersion >= 0)
  {
    UndoRoundTrip(curve, c.Spend(n).1, rest);
  }

  /** Two entries byte by byte: the last output of a coinbase of height 100, and an output that was not
      the last one. */
  lemma TwoEntries(curve: Curve, hash: seq<byte>)
    requires |hash| == 20
    ensures var out := [0x83, 0x58] + ([0] + hash);
            && UndoBytes(curve, InUndo(KeyHashOut(60_000_000_000, hash), true, 100, 1)) == [0x80, 0x49] + ([1] + out)
            && UndoBytes(curve, InUndo(KeyHashOut(60_000_000_000, hash), false, 0, 0)) == [0] + ([] + out)
  {
    hide Amount.Compressed, TxOutBytes;
    Amounts();
    AmountWords();
    KeyHashBytes(curve, 60_000_000_000, hash);
    assert Marked(0) == [0x80];
  }
}
