/** `CScriptCompressor`: scripts of a few common shapes are stored as a tag and a hash or key, all
    others with their size shifted past the tags. */
module ScriptCompressor {
  import opened Wrappers
  import opened Coins
  import opened VarInt

  const OP_DUP: byte := 0x76
  const OP_EQUAL: byte := 0x87
  const OP_EQUALVERIFY: byte := 0x88
  const OP_HASH160: byte := 0xa9
  const OP_CHECKSIG: byte := 0xac
  const N_SPECIAL_SCRIPTS := 6

  /** The curve arithmetic: which 65-byte keys are points, and how a key is found from the 33 bytes
      of its compressed form. */
  datatype Curve = Curve(valid: Script -> bool, lift: Script -> Option<Script>) {
    /** A point is found again from its first coordinate and the parity of its second one. */
    ghost predicate Lawful() {
      && (forall key: Script | |key| == 65 && key[0] == 4 && valid(key) ::
         lift([key[64] % 2 + 2] + key[1..33]) == Some(key))
      && forall key: Script | lift(key).Some? :: |lift(key).value| == 65
    }
  }

  predicate IsToKeyID(s: Script) {
    |s| == 25 && s[0] == OP_DUP && s[1] == OP_HASH160 && s[2] == 20 && s[23] == OP_EQUALVERIFY && s[24] == OP_CHECKSIG
  }

  predicate IsToScriptID(s: Script) {
    |s| == 23 && s[0] == OP_HASH160 && s[1] == 20 && s[22] == OP_EQUAL
  }

  predicate IsToShortKey(s: Script) {
    |s| == 35 && s[0] == 33 && s[34] == OP_CHECKSIG && (s[1] == 2 || s[1] == 3)
  }

  predicate IsToLongKey(c: Curve, s: Script) {
    |s| == 67 && s[0] == 65 && s[66] == OP_CHECKSIG && s[1] == 4 && c.valid(s[1..66])
  }

  /** `Compress`: the tag and what it tags, for a script of a special shape. */
  function Compress(c: Curve, s: Script): (out: Option<seq<byte>>)
    ensures out.Some? ==>
              out.value != [] && |out.value| == 1 + GetSpecialSize(out.value[0]) && out.value[0] < N_SPECIAL_SCRIPTS
  {
    if IsToKeyID(s) then Some([0] + s[3..23])
    else if IsToScriptID(s) then Some([1] + s[2..22])
    else if IsToShortKey(s) then Some([s[1]] + s[2..34])
    else if IsToLongKey(c, s) then Some([4 + s[65] % 2] + s[2..34])
    else None
  }

  function GetSpecialSize(nSize: nat): nat {
    if nSize == 0 || nSize == 1 then 20 else if nSize < N_SPECIAL_SCRIPTS then 32 else 0
  }

  /** `Decompress` into a script that holds `s` before; a key that is not on the curve leaves it. */
  function Decompress(c: Curve, nSize: nat, hash: seq<byte>, s: Script): Script
    requires nSize < N_SPECIAL_SCRIPTS && |hash| == GetSpecialSize(nSize)
  {
    if nSize == 0 then [OP_DUP, OP_HASH160, 20] + hash + [OP_EQUALVERIFY, OP_CHECKSIG]
    else if nSize == 1 then [OP_HASH160, 20] + hash + [OP_EQUAL]
    else if nSize <= 3 then [33, nSize] + hash + [OP_CHECKSIG]
    else match c.lift([nSize - 2] + hash)
      case Some(key) => [65] + key + [OP_CHECKSIG]
      case None => s
  }

  /** A script that has a special form comes back from it. */
  lemma DecompressCompress(c: Curve, s: Script, before: Script)
    requires c.Lawful() && Compress(c, s).Some?
    ensures var out := Compress(c, s).value; Decompress(c, out[0], out[1..], before) == s
  {
    var out := Compress(c, s).value;
    if IsToKeyID(s) {
      assert s == [OP_DUP, OP_HASH160, 20] + s[3..23] + [OP_EQUALVERIFY, OP_CHECKSIG];
    } else if IsToScriptID(s) {
      assert s == [OP_HASH160, 20] + s[2..22] + [OP_EQUAL];
    } else if IsToShortKey(s) {
      assert s == [33, s[1]] + s[2..34] + [OP_CHECKSIG];
    } else {
      var key := s[1..66];
      assert key[1..33] == s[2..34] && key[64] == s[65];
      assert c.lift([key[64] % 2 + 2] + key[1..33]) == Some(key);
      assert [out[0] - 2] + out[1..] == [key[64] % 2 + 2] + key[1..33];
      assert s == [65] + key + [OP_CHECKSIG];
    }
  }

  /** `Serialize`. */
  function Bytes(c: Curve, s: Script): seq<byte> {
    match Compress(c, s)
    case Some(out) => out
    case None => VarBytes(|s| + N_SPECIAL_SCRIPTS) + s
  }

  /** The five special shapes and their short forms: a key hash, a script hash, a compressed key, an
      uncompressed key that is valid, and any other script behind its size. */
  lemma ShortForms(c: Curve, hash: seq<byte>, x: seq<byte>, y: seq<byte>, tag: byte, other: Script)
    requires |hash| == 20 && |x| == |y| == 32 && (tag == 2 || tag == 3) && c.valid([4] + x + y)
    requires |other| !in {23, 25, 35, 67}
    ensures Bytes(c, [0x76, 0xa9, 20] + hash + [0x88, 0xac]) == [0] + hash
    ensures Bytes(c, [0xa9, 20] + hash + [0x87]) == [1] + hash
    ensures Bytes(c, [33, tag] + x + [0xac]) == [tag] + x
    ensures Bytes(c, [65] + ([4] + x + y) + [0xac]) == [4 + y[31] % 2] + x
    ensures Bytes(c, other) == VarBytes(|other| + 6) + other
  {
    hide VarBytes;
    var s := [65] + ([4] + x + y) + [0xac];
    assert s[1..66] == [4] + x + y && s[2..34] == x && s[65] == y[31];
    assert ([0x76, 0xa9, 20] + hash + [0x88, 0xac])[3..23] == hash;
    assert ([0xa9, 20] + hash + [0x87])[2..22] == hash;
    assert ([33, tag] + x + [0xac])[2..34] == x;
  }

  /** `Unserialize` into an empty script; a stream that ends too early throws. */
  function Parse(c: Curve, s: seq<byte>): Option<Parsed<Script>> {
    match ParseVarInt(Uint32, s, 0)
    case None => None
    case Some(p) =>
      var k := if p.value < N_SPECIAL_SCRIPTS then GetSpecialSize(p.value) else p.value - N_SPECIAL_SCRIPTS;
      if k > |p.rest| then None
      else if p.value < N_SPECIAL_SCRIPTS then Some(Parsed(Decompress(c, p.value, p.rest[..k], []), p.rest[k..]))
      else Some(Parsed(p.rest[..k], p.rest[k..]))
  }

  /** Every script whose size fits is read back, and nothing after it is touched. */
  lemma ScriptRoundTrip(c: Curve, s: Script, rest: seq<byte>)
    requires c.Lawful() && |s| + N_SPECIAL_SCRIPTS < 0x1_0000_0000
    ensures Parse(c, Bytes(c, s) + rest) == Some(Parsed(s, rest))
  {
    hide Compress, Decompress, ParseVarInt, Curve.Lawful;
    match Compress(c, s)
    case Some(out) =>
      DecompressCompress(c, s, []);
      assert VarBytes(out[0]) == [out[0]];
      assert out + rest == VarBytes(out[0]) + (out[1..] + rest);
      RoundTrip(Uint32, out[0], out[1..] + rest);
      assert (out[1..] + rest)[..|out| - 1] == out[1..] && (out[1..] + rest)[|out| - 1..] == rest;
    case None =>
      var n := |s| + N_SPECIAL_SCRIPTS;
      assert VarBytes(n) + s + rest == VarBytes(n) + (s + rest);
      RoundTrip(Uint32, n, s + rest);
      assert (s + rest)[..|s|] == s && (s + rest)[|s|..] == rest;
  }

  /** `GetSerializeSize`. */
  method GetSerializeSize(c: Curve, s: Script) returns (nSize: nat)
    requires |s| + N_SPECIAL_SCRIPTS < 0x1_0000_0000
    ensures nSize == |Bytes(c, s)|
  {
    var compr := Compress(c, s);
    if compr.Some? { return |compr.value|; }
    var k := GetSizeOfVarInt(|s| + N_SPECIAL_SCRIPTS);
    return |s| + k;
  }

  /** `Serialize`. */
  method Serialize(c: Curve, s: Script) returns (os: seq<byte>)
    requires |s| + N_SPECIAL_SCRIPTS < 0x1_0000_0000
    ensures os == Bytes(c, s)
  {
    var compr := Compress(c, s);
    if compr.Some? { return compr.value; }
    os := WriteVarInt(Uint32, |s| + N_SPECIAL_SCRIPTS);
    os := os + s;
  }

  /** `Unserialize`. */
  method Unserialize(c: Curve, s: seq<byte>) returns (r: Option<Parsed<Script>>)
    ensures r == Parse(c, s)
  {
    hide Decompress, ParseVarInt;
    var p := ReadVarInt(Uint32, s);
    if p.None? { return None; }
    var nSize, left := p.value.value, p.value.rest;
    if nSize < N_SPECIAL_SCRIPTS {
      var k := GetSpecialSize(nSize);
      if k > |left| { return None; }
      return Some(Parsed(Decompress(c, nSize, left[..k], []), left[k..]));
    }
    nSize := nSize - N_SPECIAL_SCRIPTS;
    if nSize > |left| { return None; }
    return Some(Parsed(left[..nSize], left[nSize..]));
  }
}
