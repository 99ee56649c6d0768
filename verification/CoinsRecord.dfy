/** The stored form of a coin record: version, a code that says which of the first two outputs are
    left and how many mask bytes are not zero, the mask for the others, the outputs, the height. */
module CoinsRecord {
  import opened Wrappers
  import opened Coins
  import opened Blocks
  import opened VarInt
  import Amount
  import ScriptCompressor

  type Curve = ScriptCompressor.Curve

  // ---------- one output ----------

  /** An output as a valid transaction makes it. */
  predicate StorableOut(o: TxOut) {
    MoneyRange(o.nValue) && |o.scriptPubKey| + ScriptCompressor.N_SPECIAL_SCRIPTS < 0x1_0000_0000
  }

  /** The bits of an `int64` read as a `uint64`, and back. */
  function Unsigned(n: int): nat { n % Amount.TWO_64 }

  function Signed(x: nat): int { if x < 0x8000_0000_0000_0000 then x else x - Amount.TWO_64 }

  function TxOutBytes(curve: Curve, o: TxOut): seq<byte> {
    VarBytes(Amount.Compressed(Unsigned(o.nValue)) % Amount.TWO_64) + ScriptCompressor.Bytes(curve, o.scriptPubKey)
  }

  function ParseTxOut(curve: Curve, s: seq<byte>): (r: Option<Parsed<TxOut>>) {
    match ParseVarInt(Uint64, s, 0)
    case None => None
    case Some(p) =>
      match ScriptCompressor.Parse(curve, p.rest)
      case None => None
      case Some(q) => Some(Parsed(TxOut(Signed(Amount.Decompressed(p.value) % Amount.TWO_64), q.value), q.rest))
  }

  lemma TxOutRoundTrip(curve: Curve, o: TxOut, rest: seq<byte>)
    requires curve.Lawful() && StorableOut(o)
    ensures ParseTxOut(curve, TxOutBytes(curve, o) + rest) == Some(Parsed(o, rest))
  {
    hide ScriptCompressor.Bytes, ScriptCompressor.Parse, ParseVarInt, Amount.Compressed, Amount.Decompressed, VarBytes,
         Curve.Lawful;
    var x := Amount.Compressed(o.nValue);
    Amount.CompressFits(o.nValue);
    Amount.DecompressCompress(o.nValue);
    var tail := ScriptCompressor.Bytes(curve, o.scriptPubKey);
    assert TxOutBytes(curve, o) + rest == VarBytes(x) + (tail + rest);
    RoundTrip(Uint64, x, tail + rest);
    ScriptCompressor.ScriptRoundTrip(curve, o.scriptPubKey, rest);
  }

  method SerializeTxOut(curve: Curve, o: TxOut) returns (os: seq<byte>)
    requires |o.scriptPubKey| + ScriptCompressor.N_SPECIAL_SCRIPTS < 0x1_0000_0000
    ensures os == TxOutBytes(curve, o)
  {
    hide Amount.Compressed, VarBytes, ScriptCompressor.Bytes;
    var nVal := Amount.CompressAmount(Unsigned(o.nValue));
    os := WriteVarInt(Uint64, nVal);
    var script := ScriptCompressor.Serialize(curve, o.scriptPubKey);
    os := os + script;
  }

  method UnserializeTxOut(curve: Curve, s: seq<byte>) returns (r: Option<Parsed<TxOut>>)
    ensures r == ParseTxOut(curve, s)
  {
    hide Amount.Decompressed, ParseVarInt, ScriptCompressor.Parse;
    var p := ReadVarInt(Uint64, s);
    if p.None? { return None; }
    var nValue := Amount.DecompressAmount(p.value.value);
    var q := ScriptCompressor.Unserialize(curve, p.value.rest);
    if q.None? { return None; }
    return Some(Parsed(TxOut(Signed(nValue), q.value.value), q.value.rest));
  }

  // ---------- the mask ----------

  /** A byte from at most eight bits, the lowest first. */
  function ByteOf(bits: seq<bool>): (b: nat)
    ensures b < Pow2(|bits|)
  {
    if bits == [] then 0 else (if bits[0] then 1 else 0) + 2 * ByteOf(bits[1..])
  }

  /** `(b & (1 << p)) != 0` */
  predicate Bit(b: nat, p: nat) { if p == 0 then b % 2 == 1 else Bit(b / 2, p - 1) }

  lemma {:induction false} BitOfByte(bits: seq<bool>, p: nat)
    ensures Bit(ByteOf(bits), p) <==> p < |bits| && bits[p]
    ensures ByteOf(bits) == 0 <==> forall i | 0 <= i < |bits| :: !bits[i]
    decreases p + |bits|
  {
    if bits != [] {
      BitOfByte(bits[1..], if p > 0 then p - 1 else 0);
      assert ByteOf(bits) / 2 == ByteOf(bits[1..]);
      assert forall i | 0 < i < |bits| :: bits[i] == bits[1..][i - 1];
    } else if p > 0 {
      BitOfByte(bits, p - 1);
    }
  }

  /** Setting one more bit. */
  lemma {:induction false} ByteOfNext(bits: seq<bool>, f: bool)
    ensures ByteOf(bits + [f]) == ByteOf(bits) + if f then Pow2(|bits|) else 0
  {
    if bits != [] {
      ByteOfNext(bits[1..], f);
      assert (bits + [f])[1..] == bits[1..] + [f];
    } else {
      assert ByteOf([f]) == (if f then 1 else 0) + 2 * ByteOf([f][1..]);
    }
  }

  lemma PowersTo8()
    ensures Pow2(8) == 256 && forall n: nat | n <= 8 :: Pow2(n) <= 256
  {
  }

  /** The bits in bytes, eight to each, the last byte filled up with zeros. */
  function Chunks(t: seq<bool>): (bs: seq<byte>)
    ensures |bs| == (|t| + 7) / 8
  {
    PowersTo8();
    if t == [] then [] else if |t| <= 8 then [ByteOf(t)] else [ByteOf(t[..8])] + Chunks(t[8..])
  }

  lemma {:induction false} ChunkAt(t: seq<bool>, b: nat)
    requires 8 * b < |t|
    ensures Chunks(t)[b] == ByteOf(t[8 * b..if 8 * b + 8 < |t| then 8 * b + 8 else |t|])
    decreases b
  {
    hide ByteOf;
    if b > 0 {
      ChunkAt(t[8..], b - 1);
      assert t[8..][8 * (b - 1)..if 8 * b < |t| - 8 then 8 * b else |t| - 8] ==
             t[8 * b..if 8 * b + 8 < |t| then 8 * b + 8 else |t|];
    } else if |t| <= 8 {
      assert t[0..|t|] == t;
    }
  }

  /** The bytes up to the last one that is not zero. */
  function Used(bs: seq<byte>): seq<byte> {
    if bs != [] && bs[|bs| - 1] == 0 then Used(bs[..|bs| - 1]) else bs
  }

  function NonZero(bs: seq<byte>): nat {
    if bs == [] then 0 else NonZero(bs[..|bs| - 1]) + if bs[|bs| - 1] != 0 then 1 else 0
  }

  lemma {:induction false} UsedKeepsCount(bs: seq<byte>)
    ensures NonZero(Used(bs)) == NonZero(bs) && Used(bs) <= bs
    ensures Used(bs) != [] ==> Used(bs)[|Used(bs)| - 1] != 0
  {
    if bs != [] && bs[|bs| - 1] == 0 { UsedKeepsCount(bs[..|bs| - 1]); }
  }

  function EightBits(b: byte): seq<bool> { seq(8, p requires 0 <= p < 8 => Bit(b, p)) }

  function AllBits(bs: seq<byte>): (t: seq<bool>)
    ensures |t| == 8 * |bs|
  {
    if bs == [] then [] else EightBits(bs[0]) + AllBits(bs[1..])
  }

  /** Reading the bits of the bytes gives the bits back, and zeros after them. */
  lemma {:induction false} BitsOfChunks(t: seq<bool>, i: nat)
    requires i < 8 * |Chunks(t)|
    ensures AllBits(Chunks(t))[i] == (i < |t| && t[i])
    decreases |t|
  {
    var first := if |t| <= 8 then t else t[..8];
    assert Chunks(t)[0] == ByteOf(first);
    if i < 8 {
      BitOfByte(first, i);
    } else {
      assert Chunks(t)[1..] == Chunks(t[8..]);
      BitsOfChunks(t[8..], i - 8);
    }
  }

  function Prepend(bits: seq<bool>, r: Option<Parsed<seq<bool>>>): Option<Parsed<seq<bool>>> {
    match r
    case None => None
    case Some(p) => Some(Parsed(bits + p.value, p.rest))
  }

  /** The mask reader: takes bytes until `k` of them were not zero. */
  function ParseMask(k: nat, s: seq<byte>): Option<Parsed<seq<bool>>> {
    if k == 0 then Some(Parsed([], s))
    else if s == [] then None
    else
      Prepend(EightBits(s[0]), ParseMask(if s[0] != 0 then k - 1 else k, s[1..]))
  }

  /** It takes exactly the bytes of a mask whose last byte is not zero. */
  lemma {:induction false} MaskRoundTrip(bs: seq<byte>, rest: seq<byte>)
    requires bs != [] ==> bs[|bs| - 1] != 0
    ensures ParseMask(NonZero(bs), bs + rest) == Some(Parsed(AllBits(bs), rest))
    decreases |bs|
  {
    if bs != [] {
      NonZeroFront(bs);
      MaskRoundTrip(bs[1..], rest);
      assert (bs + rest)[1..] == bs[1..] + rest;
    } else {
      assert bs + rest == rest;
    }
  }

  lemma {:induction false} NonZeroFront(bs: seq<byte>)
    requires bs != []
    ensures NonZero(bs) == NonZero(bs[1..]) + if bs[0] != 0 then 1 else 0
    ensures bs[|bs| - 1] != 0 ==> NonZero(bs) > 0
  {
    if |bs| > 1 {
      NonZeroFront(bs[..|bs| - 1]);
      assert bs[1..][..|bs| - 2] == bs[..|bs| - 1][1..];
    }
  }

  // ---------- the whole record ----------

  function Avail(vout: seq<TxOut>): seq<bool> { seq(|vout|, i requires 0 <= i < |vout| => !vout[i].IsNull()) }

  /** The outputs after the second one. */
  function Later(vout: seq<TxOut>): seq<bool> { if |vout| <= 2 then [] else Avail(vout)[2..] }

  function MaskBytes(vout: seq<TxOut>): seq<byte> { Used(Chunks(Later(vout))) }

  predicate First(vout: seq<TxOut>) { |vout| > 0 && !vout[0].IsNull() }

  predicate Second(vout: seq<TxOut>) { |vout| > 1 && !vout[1].IsNull() }

  function Code(fCoinBase: bool, fFirst: bool, fSecond: bool, nMaskCode: nat): int {
    8 * (nMaskCode - if fFirst || fSecond then 0 else 1) + (if fCoinBase then 1 else 0) + (if fFirst then 2 else 0) +
      if fSecond then 4 else 0
  }

  function OneOut(curve: Curve, o: TxOut): seq<byte> { if o.IsNull() then [] else TxOutBytes(curve, o) }

  function OutsBytes(curve: Curve, vout: seq<TxOut>): seq<byte> {
    if vout == [] then [] else OutsBytes(curve, vout[..|vout| - 1]) + OneOut(curve, vout[|vout| - 1])
  }

  /** A record as the database gets it: cleaned, not pruned, and within the integer types. */
  predicate Storable(c: Coins) {
    && c.IsClean() && !c.IsPruned() && Int32.Fits(c.nVersion) && Int32.Fits(c.nHeight) && |c.vout| < 0x8000_0000
    && forall i | 0 <= i < |c.vout| && !c.vout[i].IsNull() :: StorableOut(c.vout[i])
  }

  /** The code is never negative and fits: a record that is not pruned has an output somewhere. */
  lemma CodeFits(c: Coins)
    requires !c.IsPruned() && |c.vout| < 0x8000_0000
    ensures Uint32.Fits(Code(c.fCoinBase, First(c.vout), Second(c.vout), NonZero(MaskBytes(c.vout))))
    ensures First(c.vout) || Second(c.vout) || NonZero(MaskBytes(c.vout)) > 0
  {
    hide Chunks, Used, NonZero;
    var t := Later(c.vout);
    UsedKeepsCount(Chunks(t));
    NonZeroBound(Chunks(t));
    if !First(c.vout) && !Second(c.vout) {
      var i :| 0 <= i < |c.vout| && !c.vout[i].IsNull();
      SomeBit(t, i - 2);
    }
  }

  lemma {:induction false} NonZeroBound(bs: seq<byte>)
    ensures NonZero(bs) <= |bs|
    ensures NonZero(bs) == 0 ==> forall i | 0 <= i < |bs| :: bs[i] == 0
  {
    if bs != [] { NonZeroBound(bs[..|bs| - 1]); }
  }

  lemma SomeBit(t: seq<bool>, i: nat)
    requires i < |t| && t[i]
    ensures NonZero(Chunks(t)) > 0
  {
    var b := i / 8;
    ChunkAt(t, b);
    var part := t[8 * b..if 8 * b + 8 < |t| then 8 * b + 8 else |t|];
    BitOfByte(part, i - 8 * b);
    NonZeroBound(Chunks(t));
  }

  function RecordBytes(curve: Curve, c: Coins): seq<byte>
    requires !c.IsPruned() && |c.vout| < 0x8000_0000
  {
    CodeFits(c);
    VarBytes(Stored(c.nVersion)) +
      (VarBytes(Code(c.fCoinBase, First(c.vout), Second(c.vout), NonZero(MaskBytes(c.vout)))) +
      (MaskBytes(c.vout) + (OutsBytes(curve, c.vout) + VarBytes(Stored(c.nHeight)))))
  }

  function ParseOuts(curve: Curve, avail: seq<bool>, s: seq<byte>): Option<Parsed<seq<TxOut>>> {
    if avail == [] then Some(Parsed([], s))
    else
      match ParseOuts(curve, avail[..|avail| - 1], s)
      case None => None
      case Some(p) =>
        if !avail[|avail| - 1] then Some(Parsed(p.value + [NULL_OUT], p.rest))
        else match ParseTxOut(curve, p.rest)
          case None => None
          case Some(q) => Some(Parsed(p.value + [q.value], q.rest))
  }

  function ParseRecord(curve: Curve, s: seq<byte>): Option<Parsed<Coins>> {
    match ParseVarInt(Int32, s, 0)
    case None => None
    case Some(v) =>
      match ParseVarInt(Uint32, v.rest, 0)
      case None => None
      case Some(k) =>
        match ParseMask(k.value / 8 + (if k.value / 2 % 4 != 0 then 0 else 1), k.rest)
        case None => None
        case Some(m) =>
          match ParseOuts(curve, [k.value / 2 % 2 == 1, k.value / 4 % 2 == 1] + m.value, m.rest)
          case None => None
          case Some(o) =>
            match ParseVarInt(Int32, o.rest, 0)
            case None => None
            case Some(h) => Some(Parsed(Coins(k.value % 2 == 1, Trim(o.value), h.value, v.value), h.rest))
  }

  /** The code says what went into it. */
  lemma CodeBack(fCoinBase: bool, fFirst: bool, fSecond: bool, nMaskCode: nat)
    requires fFirst || fSecond || nMaskCode > 0
    ensures var k := Code(fCoinBase, fFirst, fSecond, nMaskCode);
      && k >= 0 && (k % 2 == 1 <==> fCoinBase) && (k / 2 % 2 == 1 <==> fFirst) && (k / 4 % 2 == 1 <==> fSecond)
      && k / 8 + (if k / 2 % 4 != 0 then 0 else 1) == nMaskCode
  {
    var q := nMaskCode - if fFirst || fSecond then 0 else 1;
    var x, y, z := if fCoinBase then 1 else 0, if fFirst then 1 else 0, if fSecond then 1 else 0;
    var k := Code(fCoinBase, fFirst, fSecond, nMaskCode);
    assert k == 2 * (2 * (2 * q + z) + y) + x;
    Digit(k, 2 * (2 * q + z) + y, 2, x);
    Digit(k, 2 * q + z, 4, 2 * y + x);
    Digit(k, q, 8, 4 * z + 2 * y + x);
    Digit(k / 2, 2 * q + z, 2, y);
    Digit(k / 2, q, 4, 2 * z + y);
    Digit(k / 4, q, 2, z);
  }

  lemma Digit(k: nat, q: int, d: nat, r: nat)
    requires d in {2, 4, 8} && r < d && k == d * q + r
    ensures k / d == q && k % d == r
  {
  }

  lemma NoOuts(curve: Curve, rest: seq<byte>)
    ensures OutsBytes(curve, []) + rest == rest
  {
  }

  /** Outputs that are left are read back into their places, and the others stay null. */
  lemma {:induction false} OutsRoundTrip(curve: Curve, vout: seq<TxOut>, avail: seq<bool>, rest: seq<byte>)
    requires curve.Lawful() && |avail| >= |vout| &&
             forall i | 0 <= i < |avail| :: avail[i] == (i < |vout| && !vout[i].IsNull())
    requires forall i | 0 <= i < |vout| :: if vout[i].IsNull() then vout[i] == NULL_OUT else StorableOut(vout[i])
    ensures ParseOuts(curve, avail, OutsBytes(curve, vout) + rest) == Some(Parsed(Resize(vout, |avail|), rest))
    decreases |avail|
  {
    hide ParseTxOut, TxOutBytes, OutsBytes, Curve.Lawful, Resize, StorableOut;
    if avail == [] {
      NoOuts(curve, rest);
      assert OutsBytes(curve, vout) + rest == rest && Resize(vout, 0) == [];
    } else {
      var k := |avail| - 1;
      if k >= |vout| {
        OutsRoundTrip(curve, vout, avail[..k], rest);
        assert Resize(vout, |avail|) == Resize(vout, k) + [NULL_OUT];
      } else {
        LastOut(curve, vout, rest);
        OutsRoundTrip(curve, vout[..k], avail[..k], OneOut(curve, vout[k]) + rest);
        assert Resize(vout, |avail|) == Resize(vout[..k], k) + [vout[k]];
        if avail[k] { TxOutRoundTrip(curve, vout[k], rest); }
      }
    }
  }

  lemma LastOut(curve: Curve, vout: seq<TxOut>, rest: seq<byte>)
    requires vout != []
    ensures var k := |vout| - 1;
            OutsBytes(curve, vout) + rest == OutsBytes(curve, vout[..k]) + (OneOut(curve, vout[k]) + rest)
    ensures var k := |vout| - 1; vout[k].IsNull() ==> OneOut(curve, vout[k]) + rest == rest
  {
    hide TxOutBytes;
    var k := |vout| - 1;
    var init, last := OutsBytes(curve, vout[..k]), OneOut(curve, vout[k]);
    assert OutsBytes(curve, vout) == init + last;
    assert (init + last) + rest == init + (last + rest);
    if vout[k].IsNull() { assert last + rest == rest; }
  }

  /** The bits the reader collects are the outputs that are left. */
  lemma AvailBack(vout: seq<TxOut>)
    requires vout != [] && !vout[|vout| - 1].IsNull()
    ensures var avail := [First(vout), Second(vout)] + AllBits(MaskBytes(vout));
      |avail| >= |vout| && forall i | 0 <= i < |avail| :: avail[i] == (i < |vout| && !vout[i].IsNull())
  {
    hide AllBits, Chunks;
    var t := Later(vout);
    if t != [] { LastChunk(t); }
    assert MaskBytes(vout) == Chunks(t);
    forall i | 0 <= i < 8 * |Chunks(t)| ensures AllBits(Chunks(t))[i] == (i < |t| && t[i]) { BitsOfChunks(t, i); }
  }

  lemma LastChunk(t: seq<bool>)
    requires t != [] && t[|t| - 1]
    ensures Chunks(t) != [] && Chunks(t)[|Chunks(t)| - 1] != 0
  {
    hide Chunks, ByteOf;
    var b := (|t| - 1) / 8;
    ChunkAt(t, b);
    assert |t| <= 8 * b + 8;
    var part := t[8 * b..|t|];
    assert part[|part| - 1] == t[|t| - 1];
    BitOfByte(part, |part| - 1);
  }

  lemma {:induction false} TrimResize(vout: seq<TxOut>, size: nat)
    requires size >= |vout| && (vout != [] ==> !vout[|vout| - 1].IsNull())
    ensures Trim(Resize(vout, size)) == vout
    decreases size
  {
  }

  /** The stages of the reader, one after the other. */
  lemma ParseStages(curve: Curve, s: seq<byte>, v: Parsed<int>, k: Parsed<int>, m: Parsed<seq<bool>>,
                    o: Parsed<seq<TxOut>>, h: Parsed<int>)
    requires ParseVarInt(Int32, s, 0) == Some(v) && ParseVarInt(Uint32, v.rest, 0) == Some(k) && k.value >= 0
    requires ParseMask(k.value / 8 + (if k.value / 2 % 4 != 0 then 0 else 1), k.rest) == Some(m)
    requires ParseOuts(curve, [k.value / 2 % 2 == 1, k.value / 4 % 2 == 1] + m.value, m.rest) == Some(o)
    requires ParseVarInt(Int32, o.rest, 0) == Some(h)
    ensures ParseRecord(curve, s) == Some(Parsed(Coins(k.value % 2 == 1, Trim(o.value), h.value, v.value), h.rest))
  {
    hide ParseVarInt, ParseMask, ParseOuts, Trim;
  }

  /** A cleaned record that is not pruned is read back from its bytes, and no byte after them is
      touched; only a negative version or height would come back changed. */
  lemma RecordRoundTrip(curve: Curve, c: Coins, rest: seq<byte>)
    requires curve.Lawful() && Storable(c)
    ensures ParseRecord(curve, RecordBytes(curve, c) + rest) == Some(Parsed(c.StoredForm(), rest))
    ensures ParseRecord(curve, RecordBytes(curve, c) + rest) == Some(Parsed(c, rest)) <==>
              c.nVersion >= 0 && c.nHeight >= 0
  {
    hide ParseRecord, ParseVarInt, ParseMask, ParseOuts, RecordBytes, VarBytes, OutsBytes, MaskBytes, NonZero, AllBits,
         Code, First, Second, Curve.Lawful, Resize, Trim;
    CodeFits(c);
    var n := NonZero(MaskBytes(c.vout));
    var code := Code(c.fCoinBase, First(c.vout), Second(c.vout), n);
    CodeBack(c.fCoinBase, First(c.vout), Second(c.vout), n);
    var mask, outs, height := MaskBytes(c.vout), OutsBytes(curve, c.vout), VarBytes(Stored(c.nHeight));
    var s4 := height + rest;
    var s3 := outs + s4;
    var s2 := mask + s3;
    var s1 := VarBytes(code) + s2;
    Flatten(curve, c, rest);
    RoundTrip(Int32, c.nVersion, s1);
    RoundTrip(Uint32, code, s2);
    MaskEnds(c.vout);
    MaskRoundTrip(mask, s3);
    AvailBack(c.vout);
    var avail := [First(c.vout), Second(c.vout)] + AllBits(mask);
    OutsRoundTrip(curve, c.vout, avail, s4);
    RoundTrip(Int32, c.nHeight, rest);
    TrimResize(c.vout, |avail|);
    assert avail == [code / 2 % 2 == 1, code / 4 % 2 == 1] + AllBits(mask);
    ParseStages(curve, RecordBytes(curve, c) + rest, Parsed(Stored(c.nVersion), s1), Parsed(code, s2),
      Parsed(AllBits(mask), s3),
                Parsed(Resize(c.vout, |avail|), s4), Parsed(Stored(c.nHeight), rest));
  }

  lemma Flatten(curve: Curve, c: Coins, rest: seq<byte>)
    requires !c.IsPruned() && |c.vout| < 0x8000_0000
    ensures var code := Code(c.fCoinBase, First(c.vout), Second(c.vout), NonZero(MaskBytes(c.vout)));
      code >= 0 && RecordBytes(curve, c) + rest ==
        VarBytes(Stored(c.nVersion)) +
          (VarBytes(code) + (MaskBytes(c.vout) + (OutsBytes(curve, c.vout) + (VarBytes(Stored(c.nHeight)) + rest))))
  {
    hide VarBytes, OutsBytes, MaskBytes, NonZero, Code, First, Second;
    CodeFits(c);
  }

  lemma MaskEnds(vout: seq<TxOut>)
    ensures MaskBytes(vout) != [] ==> MaskBytes(vout)[|MaskBytes(vout)| - 1] != 0
  {
    UsedKeepsCount(Chunks(Later(vout)));
  }

  // ---------- the methods ----------

  /** `CalcMaskSize`. */
  method CalcMaskSize(vout: seq<TxOut>) returns (nBytes: nat, nNonzeroBytes: nat)
    ensures nBytes == |MaskBytes(vout)| && nNonzeroBytes == NonZero(MaskBytes(vout))
  {
    hide Chunks, ByteOf, Used, NonZero;
    var nLastUsedByte := 0;
    nNonzeroBytes := 0;
    ghost var bs := Chunks(Later(vout));
    NoBytes();
    assert bs[..0] == [];
    var b := 0;
    while 2 + b * 8 < |vout|
      invariant 0 <= b <= |bs| && nLastUsedByte == |Used(bs[..b])| && nNonzeroBytes == NonZero(bs[..b])
      decreases |bs| - b
    {
      var fZero := ChunkIsZero(vout, b);
      OneMoreByte(bs, b);
      if !fZero {
        nLastUsedByte := b + 1;
        nNonzeroBytes := nNonzeroBytes + 1;
      }
      b := b + 1;
    }
    assert bs[..|bs|] == bs;
    UsedKeepsCount(bs);
    nBytes := nLastUsedByte;
  }

  lemma NoBytes()
    ensures Used([]) == [] && NonZero([]) == 0
  {
  }

  lemma OneMoreByte(bs: seq<byte>, b: nat)
    requires b < |bs|
    ensures NonZero(bs[..b + 1]) == NonZero(bs[..b]) + if bs[b] != 0 then 1 else 0
    ensures Used(bs[..b + 1]) == if bs[b] != 0 then bs[..b + 1] else Used(bs[..b])
  {
    assert bs[..b + 1][..b] == bs[..b];
  }

  /** The inner loop of `CalcMaskSize`: none of the eight outputs of a mask byte is left. */
  method ChunkIsZero(vout: seq<TxOut>, b: nat) returns (fZero: bool)
    requires 2 + b * 8 < |vout|
    ensures b < |Chunks(Later(vout))| && (fZero <==> Chunks(Later(vout))[b] == 0)
  {
    hide Chunks, ByteOf;
    ghost var t := Later(vout);
    ghost var tail := t[8 * b..];
    fZero := true;
    var i := 0;
    while i < 8 && 2 + b * 8 + i < |vout|
      invariant 0 <= i <= 8 && 2 + b * 8 + i <= |vout|
      invariant fZero <==> forall j | 0 <= j < i :: !tail[j]
    {
      assert tail[i] == !vout[2 + b * 8 + i].IsNull();
      if !vout[2 + b * 8 + i].IsNull() {
        fZero := false;
      }
      i := i + 1;
    }
    ChunkAt(t, b);
    assert t[8 * b..8 * b + i] == tail[..i];
    BitOfByte(tail[..i], 0);
  }

  /** One byte of the mask. */
  method MaskByte(vout: seq<TxOut>, b: nat) returns (chAvail: byte)
    requires 2 + b * 8 < |vout|
    ensures chAvail == Chunks(Later(vout))[b]
  {
    hide Chunks, ByteOf;
    ghost var t := Later(vout);
    PowersTo8();
    NoBits();
    var ch: nat, i := 0, 0;
    assert t[8 * b..8 * b] == [];
    while i < 8 && 2 + b * 8 + i < |vout|
      invariant 0 <= i <= 8 && 2 + b * 8 + i <= |vout| && ch == ByteOf(t[8 * b..8 * b + i])
    {
      ByteOfNext(t[8 * b..8 * b + i], t[8 * b + i]);
      assert t[8 * b..8 * b + i + 1] == t[8 * b..8 * b + i] + [t[8 * b + i]];
      if !vout[2 + b * 8 + i].IsNull() {
        ch := ch + Pow2(i);
      }
      i := i + 1;
    }
    ChunkAt(t, b);
    chAvail := ch;
  }

  lemma NoBits()
    ensures ByteOf([]) == 0
  {
  }

  /** `Serialize`. */
  method Serialize(curve: Curve, c: Coins) returns (s: seq<byte>)
    requires !c.IsPruned() && |c.vout| < 0x8000_0000 && Int32.Fits(c.nVersion) && Int32.Fits(c.nHeight)
    requires forall i | 0 <= i < |c.vout| ::
               |c.vout[i].scriptPubKey| + ScriptCompressor.N_SPECIAL_SCRIPTS < 0x1_0000_0000
    ensures s == RecordBytes(curve, c)
  {
    hide VarBytes, OutsBytes, MaskBytes, NonZero, TxOutBytes;
    var nMaskSize, nMaskCode := CalcMaskSize(c.vout);
    var fFirst, fSecond := |c.vout| > 0 && !c.vout[0].IsNull(), |c.vout| > 1 && !c.vout[1].IsNull();
    CodeFits(c);
    assert fFirst || fSecond || nMaskCode > 0;
    var nCode := Code(c.fCoinBase, fFirst, fSecond, nMaskCode);
    var version := WriteVarInt(Int32, c.nVersion);
    var code := WriteVarInt(Uint32, nCode);
    var mask := SerializeMask(c.vout, nMaskSize);
    var outs := SerializeOuts(curve, c.vout);
    var height := WriteVarInt(Int32, c.nHeight);
    s := version + (code + (mask + (outs + height)));
  }

  method SerializeMask(vout: seq<TxOut>, nMaskSize: nat) returns (s: seq<byte>)
    requires nMaskSize == |MaskBytes(vout)|
    ensures s == MaskBytes(vout)
  {
    hide Chunks, Used, Later;
    UsedKeepsCount(Chunks(Later(vout)));
    LaterSize(vout);
    s := [];
    for b := 0 to nMaskSize
      invariant s == MaskBytes(vout)[..b]
    {
      var chAvail := MaskByte(vout, b);
      s := s + [chAvail];
    }
    assert MaskBytes(vout)[..|MaskBytes(vout)|] == MaskBytes(vout);
  }

  lemma LaterSize(vout: seq<TxOut>)
    ensures |Later(vout)| == if |vout| <= 2 then 0 else |vout| - 2
  {
  }

  method SerializeOuts(curve: Curve, vout: seq<TxOut>) returns (s: seq<byte>)
    requires forall i | 0 <= i < |vout| :: |vout[i].scriptPubKey| + ScriptCompressor.N_SPECIAL_SCRIPTS < 0x1_0000_0000
    ensures s == OutsBytes(curve, vout)
  {
    hide TxOutBytes;
    s := [];
    for i := 0 to |vout|
      invariant s == OutsBytes(curve, vout[..i])
    {
      assert vout[..i + 1][..i] == vout[..i];
      if !vout[i].IsNull() {
        var out := SerializeTxOut(curve, vout[i]);
        s := s + out;
      }
    }
    assert vout[..|vout|] == vout;
  }

  /** `GetSerializeSize` counts exactly the bytes that `Serialize` writes. */
  method GetSerializeSize(curve: Curve, c: Coins) returns (nSize: nat)
    requires !c.IsPruned() && |c.vout| < 0x8000_0000 && Int32.Fits(c.nVersion) && Int32.Fits(c.nHeight)
    requires forall i | 0 <= i < |c.vout| ::
               |c.vout[i].scriptPubKey| + ScriptCompressor.N_SPECIAL_SCRIPTS < 0x1_0000_0000
    ensures nSize == |RecordBytes(curve, c)|
  {
    hide VarBytes, MaskBytes, NonZero, TxOutBytes;
    var nMaskSize, nMaskCode := CalcMaskSize(c.vout);
    var fFirst, fSecond := |c.vout| > 0 && !c.vout[0].IsNull(), |c.vout| > 1 && !c.vout[1].IsNull();
    CodeFits(c);
    var nCode := Code(c.fCoinBase, fFirst, fSecond, nMaskCode);
    nSize := GetSizeOfVarInt(c.nVersion);
    var k := GetSizeOfVarInt(nCode);
    nSize := nSize + k + nMaskSize;
    ghost var before := nSize;
    for i := 0 to |c.vout|
      invariant nSize == before + |OutsBytes(curve, c.vout[..i])|
    {
      assert c.vout[..i + 1][..i] == c.vout[..i];
      if !c.vout[i].IsNull() {
        TxOutSize(curve, c.vout[i]);
        var nVal := Amount.CompressAmount(Unsigned(c.vout[i].nValue));
        k := GetSizeOfVarInt(nVal);
        nSize := nSize + k;
        k := ScriptCompressor.GetSerializeSize(curve, c.vout[i].scriptPubKey);
        nSize := nSize + k;
      }
    }
    assert c.vout[..|c.vout|] == c.vout;
    k := GetSizeOfVarInt(c.nHeight);
    nSize := nSize + k;
  }

  lemma TxOutSize(curve: Curve, o: TxOut)
    ensures |TxOutBytes(curve, o)| ==
      |VarBytes(Amount.Compressed(Unsigned(o.nValue)) % Amount.TWO_64)| +
        |ScriptCompressor.Bytes(curve, o.scriptPubKey)|
  {
  }

  /** `Unserialize`. */
  method Unserialize(curve: Curve, s: seq<byte>) returns (r: Option<Parsed<Coins>>)
    ensures r == ParseRecord(curve, s)
  {
    hide ParseVarInt, ParseMask, ParseOuts;
    var v := ReadVarInt(Int32, s);
    if v.None? { return None; }
    var k := ReadVarInt(Uint32, v.value.rest);
    if k.None? { return None; }
    var nCode := k.value.value;
    var fCoinBase := nCode % 2 == 1;
    var vAvail := [nCode / 2 % 2 == 1, nCode / 4 % 2 == 1];
    var nMaskCode := nCode / 8 + if nCode / 2 % 4 != 0 then 0 else 1;
    var m := UnserializeMask(nMaskCode, k.value.rest);
    if m.None? { return None; }
    vAvail := vAvail + m.value.value;
    var o := UnserializeOuts(curve, vAvail, m.value.rest);
    if o.None? { return None; }
    var h := ReadVarInt(Int32, o.value.rest);
    if h.None? { return None; }
    var c := Cleanup(Coins(fCoinBase, o.value.value, h.value.value, v.value.value));
    return Some(Parsed(c, h.value.rest));
  }

  /** The loop over the mask. */
  method UnserializeMask(k: nat, s: seq<byte>) returns (r: Option<Parsed<seq<bool>>>)
    ensures r == ParseMask(k, s)
  {
    var nMaskCode, vAvail, left := k, [], s;
    if ParseMask(k, s).Some? { assert [] + ParseMask(k, s).value.value == ParseMask(k, s).value.value; }
    while nMaskCode > 0
      invariant nMaskCode >= 0
      invariant ParseMask(k, s) == Prepend(vAvail, ParseMask(nMaskCode, left))
      decreases |left|
    {
      if left == [] { return None; }
      var chAvail := left[0];
      left := left[1..];
      ghost var before, code := vAvail, nMaskCode;
      for p := 0 to 8
        invariant vAvail == before + EightBits(chAvail)[..p]
      {
        vAvail := vAvail + [Bit(chAvail, p)];
      }
      assert vAvail == before + EightBits(chAvail);
      if chAvail != 0 {
        nMaskCode := nMaskCode - 1;
      }
      PrependTwice(before, EightBits(chAvail), ParseMask(nMaskCode, left));
    }
    assert vAvail + [] == vAvail;
    return Some(Parsed(vAvail, left));
  }

  lemma PrependTwice(a: seq<bool>, b: seq<bool>, r: Option<Parsed<seq<bool>>>)
    ensures Prepend(a, Prepend(b, r)) == Prepend(a + b, r)
  {
    if r.Some? { assert a + (b + r.value.value) == a + b + r.value.value; }
  }

  /** The loop over the outputs. */
  method UnserializeOuts(curve: Curve, vAvail: seq<bool>, s: seq<byte>) returns (r: Option<Parsed<seq<TxOut>>>)
    ensures r == ParseOuts(curve, vAvail, s)
  {
    hide ParseTxOut;
    var vout, left := seq(|vAvail|, _ => NULL_OUT), s;
    for i := 0 to |vAvail|
      invariant |vout| == |vAvail| && ParseOuts(curve, vAvail[..i], s) == Some(Parsed(vout[..i], left))
      invariant forall j | i <= j < |vAvail| :: vout[j] == NULL_OUT
    {
      assert vAvail[..i + 1][..i] == vAvail[..i];
      ghost var before := vout[..i];
      if vAvail[i] {
        var q := UnserializeTxOut(curve, left);
        if q.None? {
          OutsFail(curve, vAvail, s, i + 1);
          return None;
        }
        vout := vout[i := q.value.value];
        left := q.value.rest;
      }
      assert vout[..i + 1] == before + [vout[i]];
    }
    assert vAvail[..|vAvail|] == vAvail && vout[..|vAvail|] == vout;
    return Some(Parsed(vout, left));
  }

  lemma {:induction false} OutsFail(curve: Curve, avail: seq<bool>, s: seq<byte>, i: nat)
    requires i <= |avail| && ParseOuts(curve, avail[..i], s) == None
    ensures ParseOuts(curve, avail, s) == None
    decreases |avail| - i
  {
    hide ParseTxOut;
    if i < |avail| {
      assert avail[..i + 1][..i] == avail[..i];
      OutsFail(curve, avail, s, i + 1);
    } else {
      assert avail[..i] == avail;
    }
  }

  // ---------- two records byte by byte ----------

  function KeyHashScript(hash: seq<byte>): Script { [0x76, 0xa9, 20] + hash + [0x88, 0xac] }

  /** An output that pays to a key hash. */
  function KeyHashOut(nValue: int, hash: seq<byte>): TxOut { TxOut(nValue, KeyHashScript(hash)) }

  lemma KeyHashBytes(curve: Curve, nValue: uint64, hash: seq<byte>)
    requires |hash| == 20 && Amount.Compressed(nValue) < Amount.TWO_64
    ensures TxOutBytes(curve, KeyHashOut(nValue, hash)) == VarBytes(Amount.Compressed(nValue)) + ([0] + hash)
  {
    hide Amount.Compressed, VarBytes;
    assert KeyHashScript(hash)[3..23] == hash;
  }

  lemma Amounts()
    ensures Amount.Compressed(60_000_000_000) == 600
    ensures Amount.Compressed(234_925_952) == 2_114_333_561
    ensures Amount.Compressed(110_397) == 993_571
  {
    Amount.StripTimes(60, 9, 0);
    Amount.Zeros(60);
  }

  lemma AmountWords()
    ensures VarBytes(600) == [0x83, 0x58] && VarBytes(993_571) == [0xbb, 0xd1, 0x23]
    ensures VarBytes(2_114_333_561) == [0x86, 0xef, 0x97, 0xd5, 0x79]
  {
    assert Marked(59) == [0xbb] && Marked(7761) == [0xbb, 0xd1];
    assert Marked(6) == [0x86];
    assert Marked(1007) == [0x86, 0xef];
    assert Marked(129_047) == [0x86, 0xef, 0x97];
    assert Marked(16_518_229) == [0x86, 0xef, 0x97, 0xd5];
  }

  lemma Words()
    ensures VarBytes(1) == [1] && VarBytes(4) == [4] && VarBytes(9) == [9]
    ensures VarBytes(203_998) == [0x8b, 0xb8, 0x5e] && VarBytes(120_891) == [0x86, 0xaf, 0x3b]
  {
    assert Marked(11) == [0x8b] && Marked(1592) == [0x8b, 0xb8];
    assert Marked(6) == [0x86] && Marked(943) == [0x86, 0xaf];
  }

  /** Null outputs at the end add nothing. */
  lemma {:induction false} NullsAddNothing(curve: Curve, vout: seq<TxOut>, k: nat)
    requires k <= |vout| && forall i | k <= i < |vout| :: vout[i].IsNull()
    ensures OutsBytes(curve, vout) == OutsBytes(curve, vout[..k])
    decreases |vout|
  {
    if k < |vout| {
      NullsAddNothing(curve, vout[..|vout| - 1], k);
      assert vout[..|vout| - 1][..k] == vout[..k];
    } else {
      assert vout[..k] == vout;
    }
  }

  lemma ThirdOfEight(t: seq<bool>)
    requires |t| == 8 && forall i | 0 <= i < 8 :: t[i] <==> i == 2
    ensures ByteOf(t) == 4
  {
    BitOfByte(t[3..], 0);
    assert t[1..][1..] == t[2..] && t[2..][1..] == t[3..];
    assert ByteOf(t[2..]) == 1;
  }

  lemma SeventhOfSeven(t: seq<bool>)
    requires |t| == 7 && forall i | 0 <= i < 7 :: t[i] <==> i == 6
    ensures ByteOf(t) == 0x40
  {
    BitOfByte(t[..6], 0);
    assert t == t[..6] + [true];
    ByteOfNext(t[..6], true);
  }

  /** The mask of outputs 2 to 16 when only 4 and 16 are left. */
  lemma TwoMaskBytes(vout: seq<TxOut>)
    requires |vout| == 17 && forall i | 2 <= i < 17 :: vout[i].IsNull() <==> i != 4 && i != 16
    ensures MaskBytes(vout) == [4, 0x40] && NonZero([4, 0x40]) == 2
  {
    var t := Later(vout);
    ThirdOfEight(t[..8]);
    SeventhOfSeven(t[8..]);
    assert Chunks(t[8..]) == [0x40] && Chunks(t) == [4, 0x40];
    assert [4, 0x40][..1] == [4] && [4][..0] == [];
  }

  /** One output left, the second one, worth 600 coins: code 4, no mask. */
  lemma OneOutputLeft(curve: Curve, hash: seq<byte>)
    requires |hash| == 20
    ensures var c := Coins(false, [NULL_OUT, KeyHashOut(60_000_000_000, hash)], 203_998, 1);
            !c.IsPruned() && RecordBytes(curve, c) == [1, 4, 0x83, 0x58, 0] + hash + [0x8b, 0xb8, 0x5e]
  {
    hide Amount.Compressed, VarBytes, TxOutBytes;
    var o := KeyHashOut(60_000_000_000, hash);
    var vout := [NULL_OUT, o];
    assert !vout[1].IsNull();
    Amounts();
    AmountWords();
    Words();
    KeyHashBytes(curve, 60_000_000_000, hash);
    NullsAddNothing(curve, [NULL_OUT], 0);
    assert vout[..1] == [NULL_OUT];
    assert OutsBytes(curve, vout) == [0x83, 0x58, 0] + hash;
  }

  /** A coinbase whose outputs 4 and 16 are left: code 9, mask bytes for outputs 2 to 9 and 10 to 17. */
  lemma TwoOutputsLeft(curve: Curve, h1: seq<byte>, h2: seq<byte>, vout: seq<TxOut>)
    requires |h1| == 20 && |h2| == 20 && |vout| == 17
    requires vout[4] == KeyHashOut(234_925_952, h1) && vout[16] == KeyHashOut(110_397, h2)
    requires forall i | 0 <= i < 16 && i != 4 :: vout[i] == NULL_OUT
    ensures var c := Coins(true, vout, 120_891, 1);
      var outs := ([0x86, 0xef, 0x97, 0xd5, 0x79] + ([0] + h1)) + ([0xbb, 0xd1, 0x23] + ([0] + h2));
      !c.IsPruned() && RecordBytes(curve, c) == [1] + ([9] + ([4, 0x40] + (outs + [0x86, 0xaf, 0x3b])))
  {
    hide Amount.Compressed, VarBytes, TxOutBytes, Chunks, Used, NonZero, MaskBytes, OutsBytes;
    assert !vout[4].IsNull() && !vout[16].IsNull();
    TwoMaskBytes(vout);
    Amounts();
    AmountWords();
    Words();
    KeyHashBytes(curve, 234_925_952, h1);
    KeyHashBytes(curve, 110_397, h2);
    TwoOuts(curve, vout);
  }

  lemma TwoOuts(curve: Curve, vout: seq<TxOut>)
    requires |vout| == 17 && !vout[4].IsNull() && !vout[16].IsNull()
    requires forall i | 0 <= i < 16 && i != 4 :: vout[i] == NULL_OUT
    ensures OutsBytes(curve, vout) == TxOutBytes(curve, vout[4]) + TxOutBytes(curve, vout[16])
  {
    hide TxOutBytes;
    NullsAddNothing(curve, vout[..16], 5);
    NullsAddNothing(curve, vout[..4], 0);
    assert vout[..16][..5] == vout[..5] && vout[..5][..4] == vout[..4];
    assert vout[..4][..0] == [];
  }
}
