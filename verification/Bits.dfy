/** Bit sets kept in bytes, as the partial Merkle tree writes them. */
module Bits {
  /** `1 << i` */
  function Mask(i: nat): bv8
    requires i < 8
  {
    match i
    case 0 => 1 case 1 => 2 case 2 => 4 case 3 => 8 case 4 => 16 case 5 => 32 case 6 => 64 case 7 => 128
  }

  predicate BitOf(b: bv8, i: nat)
    requires i < 8
  {
    b & Mask(i) != 0
  }

  /** Bit p of a byte string, lowest bit of each byte first. */
  predicate BitAt(vBytes: seq<bv8>, p: nat)
    requires p < 8 * |vBytes|
  {
    BitOf(vBytes[p / 8], p % 8)
  }

  /** Packing bits into bytes; the last byte is filled up with zeros. */
  method Pack(vBits: seq<bool>) returns (vBytes: seq<bv8>)
    ensures |vBytes| == (|vBits| + 7) / 8
    ensures forall p | 0 <= p < 8 * |vBytes| :: BitAt(vBytes, p) == (p < |vBits| && vBits[p])
  {
    hide BitAt, Mask;
    vBytes := seq((|vBits| + 7) / 8, _ => 0);
    Blank(vBytes);
    for p := 0 to |vBits|
      invariant |vBytes| == (|vBits| + 7) / 8
      invariant forall q | 0 <= q < 8 * |vBytes| :: BitAt(vBytes, q) == (q < p && vBits[q])
    {
      ghost var before := vBytes;
      vBytes := vBytes[p / 8 := vBytes[p / 8] | if vBits[p] then Mask(p % 8) else 0];
      PackStep(before, vBytes, p, vBits[p]);
    }
  }

  lemma Blank(vBytes: seq<bv8>)
    requires forall i | 0 <= i < |vBytes| :: vBytes[i] == 0
    ensures forall p | 0 <= p < 8 * |vBytes| :: !BitAt(vBytes, p)
  {
  }

  /** One more bit, in a place that was still empty. */
  lemma PackStep(before: seq<bv8>, after: seq<bv8>, p: nat, f: bool)
    requires p < 8 * |before| && !BitAt(before, p)
    requires after == before[p / 8 := before[p / 8] | if f then Mask(p % 8) else 0]
    ensures forall q | 0 <= q < 8 * |after| :: BitAt(after, q) == if q == p then f else BitAt(before, q)
  {
    forall q | 0 <= q < 8 * |after| ensures BitAt(after, q) == if q == p then f else BitAt(before, q) {
      assert BitAt(before, q) == BitOf(before[q / 8], q % 8);
    }
  }

  method Unpack(vBytes: seq<bv8>) returns (vBits: seq<bool>)
    ensures |vBits| == 8 * |vBytes| && forall p | 0 <= p < |vBits| :: vBits[p] == BitAt(vBytes, p)
  {
    vBits := [];
    for p := 0 to 8 * |vBytes|
      invariant |vBits| == p && forall q | 0 <= q < p :: vBits[q] == BitAt(vBytes, q)
    {
      vBits := vBits + [vBytes[p / 8] & Mask(p % 8) != 0];
    }
  }
}
