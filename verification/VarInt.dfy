/** Variable-length integers: groups of seven bits, the top bit marking the bytes that are followed
    by another one.  Every group but the last stands for one more than it shows, so no number has two
    encodings. */
module VarInt {
  import opened Wrappers

  /** What a reader hands back: the value and the bytes after it. */
  datatype Parsed<+T> = Parsed(value: T, rest: seq<byte>)

  /** The integer types the routines are instantiated with. */
  datatype Width = Int32 | Uint32 | Uint64 {
    function Bits(): nat { match this case Uint64 => 64 case _ => 32 }

    predicate Fits(n: int) {
      match this
      case Int32 => -0x8000_0000 <= n < 0x8000_0000
      case Uint32 => 0 <= n < 0x1_0000_0000
      case Uint64 => 0 <= n < 0x1_0000_0000_0000_0000
    }

    /** Arithmetic in the type. */
    function Wrap(n: int): (w: int)
      ensures Fits(w) && (Fits(n) ==> w == n)
    {
      match this
      case Int32 => (n + 0x8000_0000) % 0x1_0000_0000 - 0x8000_0000
      case Uint32 => n % 0x1_0000_0000
      case Uint64 => n % 0x1_0000_0000_0000_0000
    }
  }

  /** All groups of a number, each marked as followed by another. */
  function Marked(n: nat): (s: seq<byte>)
    ensures s != [] && forall i | 0 <= i < |s| :: s[i] >= 0x80
  {
    if n <= 0x7F then [n + 0x80] else Marked(n / 128 - 1) + [n % 128 + 0x80]
  }

  /** The encoding. */
  function VarBytes(n: nat): (s: seq<byte>)
    ensures Terminated(s)
  {
    if n <= 0x7F then [n] else Marked(n / 128 - 1) + [n % 128]
  }

  /** A string of bytes that is one whole encoding. */
  predicate Terminated(s: seq<byte>) {
    s != [] && s[|s| - 1] < 0x80 && forall i | 0 <= i < |s| - 1 :: s[i] >= 0x80
  }

  /** What the reader makes of the bytes it has seen. */
  function VarValue(s: seq<byte>): nat {
    if s == [] then 0
    else var b := s[|s| - 1]; 128 * VarValue(s[..|s| - 1]) + b % 128 + if b >= 0x80 then 1 else 0
  }

  lemma {:induction false} ValueOfMarked(n: nat)
    ensures VarValue(Marked(n)) == n + 1
  {
    hide Marked, VarBytes, VarValue;
    SmallBytes(n);
    if n > 0x7F {
      ValueOfMarked(n / 128 - 1);
      LastGroup(Marked(n / 128 - 1), n % 128 + 0x80);
      LowBits(n % 128);
    } else {
      LastGroup([], n + 0x80);
      assert [] + [n + 0x80] == Marked(n);
      LowBits(n);
    }
  }

  lemma LowBits(n: nat)
    requires n < 128
    ensures (n + 0x80) % 128 == n
  {
  }

  lemma LastGroup(init: seq<byte>, b: byte)
    ensures VarValue(init + [b]) == 128 * VarValue(init) + b % 128 + if b >= 0x80 then 1 else 0
    ensures init == [] ==> VarValue(init) == 0
  {
  }

  /** Every number is read back from its encoding. */
  lemma ValueOfBytes(n: nat)
    ensures VarValue(VarBytes(n)) == n
  {
    hide Marked, VarValue;
    if n > 0x7F {
      ValueOfMarked(n / 128 - 1);
      LastGroup(Marked(n / 128 - 1), n % 128);
    } else {
      LastGroup([], n);
      assert [] + [n] == VarBytes(n);
    }
  }

  lemma {:induction false} MarkedOfValue(s: seq<byte>)
    requires s != [] && forall i | 0 <= i < |s| :: s[i] >= 0x80
    ensures VarValue(s) > 0 && Marked(VarValue(s) - 1) == s
    decreases |s|
  {
    hide Marked, VarBytes, VarValue;
    var init, b := s[..|s| - 1], s[|s| - 1];
    assert s == init + [b];
    LastGroup(init, b);
    LowBits(b - 0x80);
    if init != [] {
      MarkedOfValue(init);
      Groups(VarValue(init), b - 0x80);
    }
    SmallBytes(VarValue(s) - 1);
  }

  lemma Groups(v: nat, b: nat)
    requires b < 128
    ensures (128 * v + b) / 128 == v && (128 * v + b) % 128 == b
  {
  }

  /** Every whole encoding is the encoding of the number it is read as. */
  lemma BytesOfValue(s: seq<byte>)
    requires Terminated(s)
    ensures VarBytes(VarValue(s)) == s
  {
    hide Marked, VarBytes, VarValue;
    var init, b := s[..|s| - 1], s[|s| - 1];
    assert s == init + [b];
    LastGroup(init, b);
    if init != [] {
      MarkedOfValue(init);
      Groups(VarValue(init), b);
    }
    SmallBytes(VarValue(s));
  }

  /** So the encodings and the numbers correspond one to one. */
  lemma OneEncoding(m: nat, n: nat)
    ensures VarBytes(m) == VarBytes(n) <==> m == n
  {
    ValueOfBytes(m);
    ValueOfBytes(n);
  }

  function Pow128(k: nat): nat { if k == 0 then 1 else 128 * Pow128(k - 1) }

  lemma {:induction false} LongMeansLarge(n: nat)
    ensures n > 0x7F ==> Pow128(|VarBytes(n)| - 1) <= n
    ensures |Marked(n)| == |VarBytes(n)|
  {
    if n > 0x7F {
      LongMeansLarge(n / 128 - 1);
      assert |Marked(n / 128 - 1)| == 1 ==> Pow128(1) == 128;
    }
  }

  /** An encoding fits the temporary buffer of its type. */
  lemma FitsBuffer(w: Width, n: nat)
    requires w.Fits(n)
    ensures |VarBytes(n)| <= (w.Bits() + 6) / 7
  {
    hide VarBytes, Pow128;
    LongMeansLarge(n);
    BufferPowers();
    var size := (w.Bits() + 6) / 7;
    if |VarBytes(n)| > size {
      Pow128Grows(size, |VarBytes(n)| - 1);
    }
  }

  lemma BufferPowers()
    ensures Pow128(5) == 0x8_0000_0000 && Pow128(10) == 0x8_0000_0000 * 0x8_0000_0000
  {
  }

  lemma {:induction false} Pow128Grows(j: nat, k: nat)
    requires j <= k
    ensures Pow128(j) <= Pow128(k)
  {
    if j < k { Pow128Grows(j, k - 1); }
  }

  /** A negative number passes the test `n <= 0x7F` at once, and only its low seven bits are written. */
  function Stored(n: int): (r: int)
    ensures r >= 0
  {
    if n < 0 then n % 128 else n
  }

  /** `GetSizeOfVarInt`. */
  method GetSizeOfVarInt(n0: int) returns (nRet: nat)
    ensures nRet == |VarBytes(Stored(n0))|
  {
    var n := n0;
    nRet := 1;
    while n > 0x7F
      invariant nRet + |VarBytes(Stored(n))| == |VarBytes(Stored(n0))| + 1
      decreases n
    {
      LongMeansLarge(n / 128 - 1);
      n := n / 128 - 1;
      nRet := nRet + 1;
    }
  }

  /** `WriteVarInt`: the groups go into the buffer lowest first, and out of it highest first. */
  method WriteVarInt(w: Width, n: int) returns (os: seq<byte>)
    requires w.Fits(n)
    ensures os == VarBytes(Stored(n))
  {
    hide VarBytes, Terminated;
    var tmp := new byte[(w.Bits() + 6) / 7](_ => 0);
    if n >= 0 { FitsBuffer(w, n); } else { SmallBytes(Stored(n)); }
    var len := FillBuffer(tmp, n);
    ghost var all := VarBytes(Stored(n));
    os := [];
    while true
      invariant 0 <= len < |all| <= tmp.Length && os == all[..|all| - 1 - len]
      invariant forall i | 0 <= i <= len :: tmp[i] == all[|all| - 1 - i]
      decreases len
    {
      os := os + [tmp[len]];
      assert os == all[..|all| - len];
      if len == 0 { break; }
      len := len - 1;
    }
    assert all[..|all|] == all;
  }

  lemma SmallBytes(n: nat)
    ensures n <= 0x7F ==> VarBytes(n) == [n]
    ensures n > 0x7F ==>
              VarBytes(n) == Marked(n / 128 - 1) + [n % 128] && Marked(n) == Marked(n / 128 - 1) + [n % 128 + 0x80]
    ensures n <= 0x7F ==> Marked(n) == [n + 0x80]
  {
  }

  /** The first loop of `WriteVarInt`. */
  method FillBuffer(tmp: array<byte>, n0: int) returns (len: nat)
    requires |VarBytes(Stored(n0))| <= tmp.Length
    modifies tmp
    ensures len == |VarBytes(Stored(n0))| - 1
    ensures forall i | 0 <= i <= len :: tmp[i] == VarBytes(Stored(n0))[len - i]
  {
    hide VarBytes, Marked;
    var n := n0;
    len := 0;
    ghost var all := VarBytes(Stored(n0));
    ghost var left := all;
    while n > 0x7F
      invariant if n0 < 0 then n == n0 && len == 0 else n >= 0
      invariant left == (if len == 0 then VarBytes(Stored(n)) else Marked(n)) && |left| + len == |all|
      invariant left != [] && forall i | 0 <= i < |left| :: left[i] == all[i]
      invariant forall i | 0 <= i < len :: tmp[i] == all[|all| - 1 - i]
      decreases n
    {
      SmallBytes(n);
      tmp[len] := n % 128 + if len > 0 then 0x80 else 0;
      assert left[|left| - 1] == tmp[len];
      left := Marked(n / 128 - 1);
      n := n / 128 - 1;
      len := len + 1;
    }
    SmallBytes(Stored(n));
    tmp[len] := n % 128 + if len > 0 then 0x80 else 0;
    assert left == [tmp[len]];
  }

  /** What `ReadVarInt` does, seen from the bytes still to come. */
  function ParseVarInt(w: Width, s: seq<byte>, n: int): (r: Option<Parsed<int>>)
    ensures r.Some? ==> w.Fits(r.value.value)
  {
    if s == [] then None
    else
      var m := w.Wrap(n * 128 + s[0] % 128);
      if s[0] >= 0x80 then ParseVarInt(w, s[1..], w.Wrap(m + 1)) else Some(Parsed(m, s[1..]))
  }

  /** `ReadVarInt`; a stream that ends too early throws. */
  method ReadVarInt(w: Width, s: seq<byte>) returns (r: Option<Parsed<int>>)
    ensures r == ParseVarInt(w, s, 0)
  {
    var n, left := 0, s;
    while true
      invariant ParseVarInt(w, left, n) == ParseVarInt(w, s, 0)
      decreases |left|
    {
      if left == [] { return None; }
      var chData := left[0];
      left := left[1..];
      n := w.Wrap(n * 128 + chData % 128);
      if chData >= 0x80 {
        n := w.Wrap(n + 1);
      } else {
        return Some(Parsed(n, left));
      }
    }
  }

  /** The reader takes one whole encoding off the stream, and its number as far as the type holds it. */
  lemma {:induction false} ParseTerminated(w: Width, done: seq<byte>, s: seq<byte>, rest: seq<byte>)
    requires Terminated(s) && forall i | 0 <= i < |done| :: done[i] >= 0x80
    ensures ParseVarInt(w, s + rest, w.Wrap(VarValue(done))) == Some(Parsed(w.Wrap(VarValue(done + s)), rest))
    decreases |s|
  {
    hide Width.Wrap, VarValue;
    var done' := done + [s[0]];
    LastGroup(done, s[0]);
    WrapStep(w, VarValue(done), s[0]);
    assert (s + rest)[0] == s[0] && (s + rest)[1..] == s[1..] + rest;
    if |s| > 1 {
      ParseTerminated(w, done', s[1..], rest);
      assert done' + s[1..] == done + s;
    } else {
      assert done' == done + s && s[1..] + rest == rest;
    }
  }

  lemma WrapStep(w: Width, v: nat, b: byte)
    ensures w.Wrap(w.Wrap(v) * 128 + b % 128) == w.Wrap(v * 128 + b % 128)
    ensures w.Wrap(w.Wrap(v * 128 + b % 128) + 1) == w.Wrap(v * 128 + b % 128 + 1)
  {
    hide Width.Wrap;
    var c := b % 128;
    SameWrap(w, w.Wrap(v) * 128 + c, v * 128 + c, 128 * Turns(w, v));
    SameWrap(w, w.Wrap(v * 128 + c) + 1, v * 128 + c + 1, Turns(w, v * 128 + c));
  }

  /** How often `Wrap` has gone round. */
  ghost function Turns(w: Width, n: int): (q: int)
    ensures n == w.Wrap(n) + q * Modulus(w)
  {
    match w
    case Int32 => (n + 0x8000_0000) / 0x1_0000_0000
    case Uint32 => n / 0x1_0000_0000
    case Uint64 => n / 0x1_0000_0000_0000_0000
  }

  ghost function Modulus(w: Width): nat { if w.Uint64? then 0x1_0000_0000_0000_0000 else 0x1_0000_0000 }

  lemma SameWrap(w: Width, a: int, b: int, q: int)
    requires b == a + q * Modulus(w)
    ensures w.Wrap(a) == w.Wrap(b)
  {
    match w
    case Int32 => Mod32(a + 0x8000_0000, q);
    case Uint32 => Mod32(a, q);
    case Uint64 => Mod64(a, q);
  }

  lemma Mod32(a: int, q: int)
    ensures (a + q * 0x1_0000_0000) % 0x1_0000_0000 == a % 0x1_0000_0000
  {
  }

  lemma Mod64(a: int, q: int)
    ensures (a + q * 0x1_0000_0000_0000_0000) % 0x1_0000_0000_0000_0000 == a % 0x1_0000_0000_0000_0000
  {
  }

  /** A number written is read back exactly when it is not negative: a negative one comes back as its
      low seven bits. */
  lemma RoundTrip(w: Width, n: int, rest: seq<byte>)
    requires w.Fits(n)
    ensures ParseVarInt(w, VarBytes(Stored(n)) + rest, 0) == Some(Parsed(Stored(n), rest))
    ensures ParseVarInt(w, VarBytes(Stored(n)) + rest, 0) == Some(Parsed(n, rest)) <==> n >= 0
  {
    ValueOfBytes(Stored(n));
    ParseTerminated(w, [], VarBytes(Stored(n)), rest);
    assert [] + VarBytes(Stored(n)) == VarBytes(Stored(n));
  }

  /** The order of the encodings: shorter ones first, those of one length as their bytes go. */
  ghost predicate Precedes(a: seq<byte>, b: seq<byte>) {
    |a| < |b| || (|a| == |b| && exists k :: 0 <= k < |a| && a[..k] == b[..k] && a[k] < b[k])
  }

  lemma PrecedesLonger(a: seq<byte>, b: seq<byte>, x: byte, y: byte)
    requires Precedes(a, b) || (a == b && x < y)
    ensures Precedes(a + [x], b + [y])
  {
    var c, d := a + [x], b + [y];
    if a == b {
      assert c[..|a|] == d[..|a|] && c[|a|] < d[|a|];
    } else if |a| == |b| {
      var k :| 0 <= k < |a| && a[..k] == b[..k] && a[k] < b[k];
      assert c[..k] == a[..k] && d[..k] == b[..k] && c[k] < d[k];
    }
  }

  lemma {:induction false} MarkedInOrder(m: nat, n: nat)
    requires m < n
    ensures Precedes(Marked(m), Marked(n))
    decreases n
  {
    if m > 0x7F {
      if m / 128 < n / 128 { MarkedInOrder(m / 128 - 1, n / 128 - 1); }
      PrecedesLonger(Marked(m / 128 - 1), Marked(n / 128 - 1), m % 128 + 0x80, n % 128 + 0x80);
    } else if n <= 0x7F {
      PrecedesLonger([], [], m + 0x80, n + 0x80);
    }
  }

  /** Larger numbers have later encodings.  As every whole encoding is that of some number, this fixes
      the encoding of every number. */
  lemma InOrder(m: nat, n: nat)
    requires m < n
    ensures Precedes(VarBytes(m), VarBytes(n))
  {
    if m > 0x7F {
      if m / 128 < n / 128 { MarkedInOrder(m / 128 - 1, n / 128 - 1); }
      PrecedesLonger(Marked(m / 128 - 1), Marked(n / 128 - 1), m % 128, n % 128);
    } else if n <= 0x7F {
      PrecedesLonger([], [], m, n);
    }
  }
}
