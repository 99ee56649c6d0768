/** Base58 text for byte strings: the bytes are one big number written in base 58, and leading zero
    bytes, which the number does not show, are written as leading ones. */
module Base58 {
  import opened Wrappers
  import opened Bignum

  const ALPHABET: string := "123456789" + "ABCDEFGH" + "JKLMN" + "PQRSTUVWXYZ" + "abcdefghijk" + "mnopqrstuvwxyz"

  /** `isspace` in the C locale. */
  predicate IsSpace(c: char) { c == ' ' || c == '\t' || c == '\n' || c == '\U{0B}' || c == '\U{0C}' || c == '\r' }

  /** `strchr` over the alphabet. */
  function IndexFrom(c: char, k: nat): (i: Option<nat>)
    requires k <= |ALPHABET|
    ensures i.Some? ==> k <= i.value < |ALPHABET| && ALPHABET[i.value] == c
    ensures i.None? ==> forall j | k <= j < |ALPHABET| :: ALPHABET[j] != c
    decreases |ALPHABET| - k
  {
    if k == |ALPHABET| then None else if ALPHABET[k] == c then Some(k) else IndexFrom(c, k + 1)
  }

  predicate InAlphabet(c: char) { IndexFrom(c, 0).Some? }

  function DigitOf(c: char): (d: nat)
    ensures d < 58
  {
    AlphabetSize();
    if InAlphabet(c) then IndexFrom(c, 0).value else 0
  }

  function CharOf(d: nat): char
    requires d < 58
  {
    AlphabetSize();
    ALPHABET[d]
  }

  lemma AlphabetSize()
    ensures |ALPHABET| == 58
  {
  }

  /** The alphabet is in ASCII order, so its characters are all different. */
  lemma {:induction false} Ascending(i: nat, j: nat)
    requires i < j < 58
    ensures CharOf(i) < CharOf(j)
  {
    hide IndexFrom, CharOf;
    InOrder(j - 1);
    if i + 1 < j { Ascending(i, j - 1); }
  }

  lemma InOrder(i: nat)
    requires i < 57
    ensures CharOf(i) < CharOf(i + 1)
  {
  }

  lemma DigitOfChar(d: nat)
    requires d < 58
    ensures InAlphabet(CharOf(d)) && DigitOf(CharOf(d)) == d
  {
    var i := IndexFrom(CharOf(d), 0);
    AlphabetSize();
    if i.Some? && i.value < d { Ascending(i.value, d); }
    if i.Some? && i.value > d { Ascending(d, i.value); }
  }

  lemma CharOfDigit(c: char)
    requires InAlphabet(c)
    ensures CharOf(DigitOf(c)) == c && (DigitOf(c) == 0 <==> c == '1')
  {
  }

  // ---------- sequences ----------

  function Rev<T>(s: seq<T>): (r: seq<T>)
    ensures |r| == |s| && forall i | 0 <= i < |s| :: r[i] == s[|s| - 1 - i]
  {
    if s == [] then [] else Rev(s[1..]) + [s[0]]
  }

  lemma RevTwice<T>(s: seq<T>)
    ensures Rev(Rev(s)) == s
  {
  }

  function Copies<T>(x: T, n: nat): seq<T> { seq(n, _ => x) }

  /** How often `x` stands at the front. */
  function Leading<T(==)>(s: seq<T>, x: T): (n: nat)
    ensures n <= |s| && (n < |s| ==> s[n] != x) && forall i | 0 <= i < n :: s[i] == x
  {
    if s == [] || s[0] != x then 0 else 1 + Leading(s[1..], x)
  }

  lemma {:induction false} LeadingUnique<T>(s: seq<T>, x: T, n: nat)
    requires n <= |s| && (n < |s| ==> s[n] != x) && forall i | 0 <= i < n :: s[i] == x
    ensures Leading(s, x) == n
  {
  }

  lemma LeadingIs<T>(x: T, n: nat, rest: seq<T>)
    requires rest != [] ==> rest[0] != x
    ensures Leading(Copies(x, n) + rest, x) == n
  {
    LeadingUnique(Copies(x, n) + rest, x, n);
  }

  lemma SplitLeading<T>(s: seq<T>, x: T)
    ensures s == Copies(x, Leading(s, x)) + s[Leading(s, x)..]
  {
    var n := Leading(s, x);
    assert s[..n] == Copies(x, n);
    assert s == s[..n] + s[n..];
  }

  // ---------- numbers in base 58, least significant digit first ----------

  type Digits58 = ds: seq<nat> | forall i | 0 <= i < |ds| :: ds[i] < 58

  function Value58(ds: Digits58): nat { if ds == [] then 0 else ds[0] + 58 * Value58(ds[1..]) }

  function ToBase58(n: nat): (ds: Digits58)
    ensures Value58(ds) == n && (ds != [] ==> ds[|ds| - 1] != 0)
  {
    if n == 0 then [] else [n % 58] + ToBase58(n / 58)
  }

  lemma {:induction false} ToBase58OfValue(ds: Digits58)
    requires ds != [] ==> ds[|ds| - 1] != 0
    ensures ToBase58(Value58(ds)) == ds
  {
    if ds != [] {
      ToBase58OfValue(ds[1..]);
      if |ds| > 1 { Nonzero58(ds[1..]); }
      assert Value58(ds) % 58 == ds[0] && Value58(ds) / 58 == Value58(ds[1..]);
    }
  }

  lemma {:induction false} Nonzero58(ds: Digits58)
    requires ds != [] && ds[|ds| - 1] != 0
    ensures Value58(ds) > 0
  {
    if |ds| > 1 { Nonzero58(ds[1..]); }
  }

  /** Zeros at the top do not count. */
  lemma {:induction false} ZerosOnTop58(ds: Digits58, n: nat)
    ensures Value58(ds + Copies<nat>(0, n)) == Value58(ds)
  {
    if ds != [] {
      ZerosOnTop58(ds[1..], n);
      assert (ds + Copies<nat>(0, n))[1..] == ds[1..] + Copies<nat>(0, n);
    } else {
      assert ds + Copies<nat>(0, n) == Copies<nat>(0, n);
      ZeroValue(n);
    }
  }

  lemma {:induction false} ZerosOnTop(vch: seq<byte>, n: nat)
    ensures Value(vch + Copies<byte>(0, n)) == Value(vch)
  {
    if vch != [] {
      ZerosOnTop(vch[1..], n);
      assert (vch + Copies<byte>(0, n))[1..] == vch[1..] + Copies<byte>(0, n);
    } else {
      assert vch + Copies<byte>(0, n) == Copies<byte>(0, n);
      ZeroValue(n);
    }
  }

  lemma {:induction false} ZeroValue(n: nat)
    ensures Value(Copies<byte>(0, n)) == 0 && Value58(Copies<nat>(0, n)) == 0
  {
    if n > 0 {
      ZeroValue(n - 1);
      assert Copies<byte>(0, n)[1..] == Copies<byte>(0, n - 1) && Copies<nat>(0, n)[1..] == Copies<nat>(0, n - 1);
    }
  }

  // ---------- the two directions ----------

  function Chars(ds: Digits58): string { seq(|ds|, i requires 0 <= i < |ds| => CharOf(ds[i])) }

  function DigitsOf(s: string): Digits58 { seq(|s|, i requires 0 <= i < |s| => DigitOf(s[i])) }

  /** The bytes as one number, the first byte the most significant. */
  function Magnitude(b: seq<byte>): nat { Value(Rev(b)) }

  function Encoded(b: seq<byte>): string { Copies('1', Leading(b, 0)) + Rev(Chars(ToBase58(Magnitude(b)))) }

  /** The bytes that a text over the alphabet stands for. */
  function Decoded(s: string): seq<byte> { Copies<byte>(0, Leading(s, '1')) + Rev(Digits(Value58(Rev(DigitsOf(s))))) }

  predicate AllInAlphabet(s: string) { forall i | 0 <= i < |s| :: InAlphabet(s[i]) }

  /** Bytes are known by how many zeros come first and by the number they make. */
  lemma BytesSplit(b: seq<byte>)
    ensures b == Copies<byte>(0, Leading(b, 0)) + Rev(Digits(Magnitude(b)))
  {
    var z := Leading(b, 0);
    SplitLeading(b, 0);
    var top := Rev(b[z..]);
    assert Rev(b) == top + Copies<byte>(0, z);
    ZerosOnTop(top, z);
    DigitsOfValue(top);
    RevTwice(b[z..]);
  }

  lemma TextSplit(s: string)
    requires AllInAlphabet(s)
    ensures s == Copies('1', Leading(s, '1')) + Rev(Chars(ToBase58(Value58(Rev(DigitsOf(s))))))
  {
    hide IndexFrom;
    var z := Leading(s, '1');
    SplitLeading(s, '1');
    var tail := s[z..];
    DigitsSplit(s, z);
    ZerosOnTop58(Rev(DigitsOf(tail)), z);
    if tail != [] { CharOfDigit(tail[0]); }
    ToBase58OfValue(Rev(DigitsOf(tail)));
    CharsBack(tail);
  }

  lemma DigitsSplit(s: string, z: nat)
    requires z <= |s| && AllInAlphabet(s) && forall i | 0 <= i < z :: s[i] == '1'
    ensures Rev(DigitsOf(s)) == Rev(DigitsOf(s[z..])) + Copies<nat>(0, z)
  {
  }

  lemma CharsBack(s: string)
    requires AllInAlphabet(s)
    ensures Rev(Chars(Rev(DigitsOf(s)))) == s
  {
  }

  lemma EncodedInAlphabet(b: seq<byte>)
    ensures AllInAlphabet(Encoded(b))
  {
  }

  /** The digits of a text whose ones have been put in front. */
  lemma TextOf(z: nat, ds: Digits58)
    requires ds != [] ==> ds[|ds| - 1] != 0
    ensures var s := Copies('1', z) + Rev(Chars(ds)); Leading(s, '1') == z && Value58(Rev(DigitsOf(s))) == Value58(ds)
  {
    hide IndexFrom, CharOf, DigitOf, Value58;
    if ds != [] {
      Ascending(0, ds[|ds| - 1]);
      FirstChar();
      assert Rev(Chars(ds))[0] == CharOf(ds[|ds| - 1]);
    }
    LeadingIs('1', z, Rev(Chars(ds)));
    TextDigits(z, ds);
    ZerosOnTop58(ds, z);
  }

  lemma FirstChar()
    ensures CharOf(0) == '1'
  {
  }

  lemma TextDigits(z: nat, ds: Digits58)
    ensures Rev(DigitsOf(Copies('1', z) + Rev(Chars(ds)))) == ds + Copies<nat>(0, z)
  {
    hide IndexFrom, CharOf, DigitOf;
    var s := Copies('1', z) + Rev(Chars(ds));
    FirstChar();
    forall i | 0 <= i < |s| ensures Rev(DigitsOf(s))[i] == (ds + Copies<nat>(0, z))[i] {
      DigitOfChar(if i < |ds| then ds[i] else 0);
      assert s[|s| - 1 - i] == if i < |ds| then CharOf(ds[i]) else '1';
    }
  }

  /** Decoding undoes encoding, for every byte string, whatever its first bytes are. */
  lemma DecodeEncode(b: seq<byte>)
    ensures AllInAlphabet(Encoded(b)) && Decoded(Encoded(b)) == b
  {
    hide IndexFrom, ToBase58, Digits, Value, Value58;
    EncodedInAlphabet(b);
    BytesSplit(b);
    TextOf(Leading(b, 0), ToBase58(Magnitude(b)));
  }

  /** Encoding undoes decoding, for every text over the alphabet. */
  lemma EncodeDecode(s: string)
    requires AllInAlphabet(s)
    ensures Encoded(Decoded(s)) == s
  {
    hide IndexFrom, InAlphabet, ToBase58, Value58, DigitsOf, Chars;
    TextSplit(s);
    BytesOf(Leading(s, '1'), Value58(Rev(DigitsOf(s))));
  }

  /** Zero bytes in front of the minimal bytes of a number. */
  lemma BytesOf(z: nat, n: nat)
    ensures var b := Copies<byte>(0, z) + Rev(Digits(n)); Leading(b, 0) == z && Magnitude(b) == n
  {
    hide Digits, Value;
    var b := Copies<byte>(0, z) + Rev(Digits(n));
    LeadingIs<byte>(0, z, Rev(Digits(n)));
    assert Rev(b) == Digits(n) + Copies<byte>(0, z);
    ZerosOnTop(Digits(n), z);
  }

  // ---------- white space around the text ----------

  /** Nothing but space from position `k` on. */
  predicate SpaceFrom(s: string, k: nat)
    requires k <= |s|
  {
    forall i | k <= i < |s| :: IsSpace(s[i])
  }

  /** The text from `a` to `b` is over the alphabet, with space on both sides. */
  predicate Framed(s: string, a: nat, b: nat) {
    && a <= b <= |s| && (forall i | a <= i < b :: InAlphabet(s[i])) && (forall i | 0 <= i < a :: IsSpace(s[i])) &&
       SpaceFrom(s, b)
  }

  lemma NoSpaceInAlphabet(c: char)
    ensures InAlphabet(c) ==> !IsSpace(c)
  {
    if InAlphabet(c) {
      CharOfDigit(c);
      if DigitOf(c) > 0 { Ascending(0, DigitOf(c)); }
      assert CharOf(0) == '1';
    }
  }

  /** Two ways to frame a text show the same characters. */
  lemma OneFrame(s: string, a: nat, b: nat, a': nat, b': nat)
    requires Framed(s, a, b) && Framed(s, a', b')
    ensures s[a..b] == s[a'..b']
  {
    hide IndexFrom;
    if a < b { FrameInside(s, a, b, a', b'); }
    if a' < b' { FrameInside(s, a', b', a, b); }
  }

  lemma FrameInside(s: string, a: nat, b: nat, a': nat, b': nat)
    requires Framed(s, a, b) && Framed(s, a', b') && a < b
    ensures a' <= a && b <= b'
  {
    hide IndexFrom;
    NoSpaceInAlphabet(s[a]);
    NoSpaceInAlphabet(s[b - 1]);
  }

  /** The text of any bytes is accepted by the decoder, and read back as those bytes. */
  lemma EncodedDecodes(b: seq<byte>)
    ensures var s := Encoded(b); Framed(s, 0, |s|) && Decoded(s[0..|s|]) == b
  {
    hide IndexFrom, Encoded, Decoded;
    DecodeEncode(b);
    assert Encoded(b)[0..|Encoded(b)|] == Encoded(b);
  }

  /** `EncodeBase58`. */
  method EncodeBase58(b: seq<byte>) returns (str: string)
    ensures str == Encoded(b)
  {
    hide IndexFrom, Encoded, CharOf, ToBase58, Chars, Magnitude, SetVch;
    FirstChar();
    var vchTmp := Rev(b) + [0];
    NeverNegative(b);
    var bn := SetVch(vchTmp);
    str := WriteDigits(bn);
    ghost var digits := str;
    var p := 0;
    while p < |b| && b[p] == 0
      invariant p <= Leading(b, 0) && str == digits + Copies('1', p)
    {
      assert Copies('1', p + 1) == Copies('1', p) + ['1'];
      str := str + [CharOf(0)];
      p := p + 1;
    }
    str := Rev(str);
    EncodedIs(b, digits, str);
  }

  /** The loop of divisions. */
  method WriteDigits(n: nat) returns (str: string)
    ensures str == Chars(ToBase58(n))
  {
    hide CharOf;
    var bn := n;
    str := "";
    while bn > 0
      invariant bn >= 0
      invariant Chars(ToBase58(n)) == str + Chars(ToBase58(bn))
    {
      LowestChar(bn);
      str := str + [CharOf(bn % 58)];
      bn := bn / 58;
    }
  }

  /** The zero byte in front keeps the sign bit clear. */
  lemma NeverNegative(b: seq<byte>)
    ensures SetVch(Rev(b) + [0]) == Magnitude(b)
  {
    ValueAppend(Rev(b), 0);
  }

  lemma LowestChar(n: nat)
    requires n > 0
    ensures Chars(ToBase58(n)) == [CharOf(n % 58)] + Chars(ToBase58(n / 58))
  {
    hide CharOf;
    assert ToBase58(n) == [n % 58] + ToBase58(n / 58);
  }

  lemma EncodedIs(b: seq<byte>, digits: string, str: string)
    requires digits == Chars(ToBase58(Magnitude(b))) && str == Rev(digits + Copies('1', Leading(b, 0)))
    ensures str == Encoded(b)
  {
  }

  /** `DecodeBase58` of a C string: it succeeds exactly when the text is over the alphabet apart from
      white space at either end, and then gives the bytes that text stands for. */
  method DecodeBase58(s: string) returns (ok: bool, vchRet: seq<byte>)
    ensures ok <==> exists a: nat, b: nat :: Framed(s, a, b)
    ensures ok ==> forall a: nat, b: nat | Framed(s, a, b) :: vchRet == Decoded(s[a..b])
  {
    hide IndexFrom, InAlphabet, IsSpace, AllInAlphabet, Framed, Decoded, Digits, DigitsOf, Value58, Rev;
    vchRet := [];
    var psz := 0;
    while psz < |s| && IsSpace(s[psz])
      invariant psz <= |s| && forall i | 0 <= i < psz :: IsSpace(s[i])
    {
      psz := psz + 1;
    }
    var e, bn := ReadDigits(s, psz);
    var p := e;
    if e < |s| {
      while p < |s| && IsSpace(s[p])
        invariant e <= p <= |s| && forall i | e <= i < p :: IsSpace(s[i])
      {
        p := p + 1;
      }
      if p < |s| {
        forall a: nat, b: nat ensures !Framed(s, a, b) { NotFramed(s, psz, e, p, a, b); }
        return false, [];
      }
    }
    FramedIs(s, psz, e);
    SameFrames(s, psz, e);

    var vchTmp := GetVch(bn);
    if |vchTmp| >= 2 && vchTmp[|vchTmp| - 1] == 0 && vchTmp[|vchTmp| - 2] >= 0x80 {
      vchTmp := vchTmp[..|vchTmp| - 1];
    }
    SignByte(bn, vchTmp);

    var nLeadingZeros := 0;
    while psz + nLeadingZeros < |s| && s[psz + nLeadingZeros] == ALPHABET[0]
      invariant psz + nLeadingZeros <= |s|
      invariant forall i | psz <= i < psz + nLeadingZeros :: s[i] == '1'
    {
      nLeadingZeros := nLeadingZeros + 1;
    }
    OnesCounted(s, psz, e, nLeadingZeros);
    vchRet := Copies<byte>(0, nLeadingZeros) + Rev(vchTmp);
    DecodedIs(s[psz..e], vchRet, bn);
    return true, vchRet;
  }

  /** The loop over the characters of the alphabet. */
  method ReadDigits(s: string, psz: nat) returns (p: nat, bn: nat)
    requires psz <= |s|
    ensures psz <= p <= |s| && AllInAlphabet(s[psz..p]) && (p < |s| ==> !InAlphabet(s[p]))
    ensures bn == Value58(Rev(DigitsOf(s[psz..p])))
  {
    hide IndexFrom, InAlphabet, DigitOf;
    bn := 0;
    p := psz;
    assert s[psz..p] == [] && DigitsOf([]) == [];
    while p < |s| && InAlphabet(s[p])
      invariant psz <= p <= |s|
      invariant AllInAlphabet(s[psz..p]) && bn == Value58(Rev(DigitsOf(s[psz..p])))
    {
      NextDigit(s[psz..p], s[p]);
      assert s[psz..p + 1] == s[psz..p] + [s[p]];
      bn := bn * 58;
      bn := bn + DigitOf(s[p]);
      p := p + 1;
    }
  }

  /** Appending a character multiplies by 58 and adds its digit. */
  lemma NextDigit(s: string, c: char)
    ensures Value58(Rev(DigitsOf(s + [c]))) == 58 * Value58(Rev(DigitsOf(s))) + DigitOf(c)
  {
    hide IndexFrom;
    var ds := Rev(DigitsOf(s + [c]));
    assert ds[0] == DigitOf(c) && ds[1..] == Rev(DigitsOf(s));
  }

  lemma SameFrames(s: string, a': nat, b': nat)
    requires Framed(s, a', b')
    ensures forall a: nat, b: nat | Framed(s, a, b) :: a <= b <= |s| && s[a..b] == s[a'..b']
  {
    hide IndexFrom;
    forall a: nat, b: nat | Framed(s, a, b) ensures s[a..b] == s[a'..b'] { OneFrame(s, a, b, a', b'); }
  }

  lemma FramedIs(s: string, a: nat, b: nat)
    requires a <= b <= |s| && AllInAlphabet(s[a..b]) && (forall i | 0 <= i < a :: IsSpace(s[i])) &&
             forall i | b <= i < |s| :: IsSpace(s[i])
    ensures Framed(s, a, b)
  {
    hide IndexFrom;
    forall i | a <= i < b ensures InAlphabet(s[i]) { assert s[a..b][i - a] == s[i]; }
  }

  /** Something after the text that is neither in the alphabet nor space, or text after space. */
  lemma NotFramed(s: string, psz: nat, e: nat, p: nat, a: nat, b: nat)
    requires psz <= e <= p < |s| && AllInAlphabet(s[psz..e]) && !InAlphabet(s[e])
    requires !IsSpace(s[p]) && !IsSpace(s[psz])
    ensures !Framed(s, a, b)
  {
  }

  /** The ones counted from the start of the text do not run past its end. */
  lemma OnesCounted(s: string, psz: nat, e: nat, n: nat)
    requires psz <= e <= |s| && SpaceFrom(s, e) && psz + n <= |s| && (psz + n < |s| ==> s[psz + n] != '1')
    requires forall i | psz <= i < psz + n :: s[i] == '1'
    ensures n == Leading(s[psz..e], '1')
  {
    assert e < |s| ==> s[e] != '1';
    LeadingUnique(s[psz..e], '1', n);
  }

  /** Stripping the sign byte leaves the minimal magnitude. */
  lemma SignByte(bn: nat, vch: seq<byte>)
    requires var v := GetVch(bn); vch == if |v| >= 2 && v[|v| - 1] == 0 && v[|v| - 2] >= 0x80 then v[..|v| - 1] else v
    ensures vch == Digits(bn)
  {
  }

  lemma DecodedIs(s: string, vchRet: seq<byte>, bn: nat)
    requires bn == Value58(Rev(DigitsOf(s))) && vchRet == Copies<byte>(0, Leading(s, '1')) + Rev(Digits(bn))
    ensures vchRet == Decoded(s)
  {
  }

  // ---------- what the text means ----------

  /** The alphabet: the digits and letters of ASCII in their order, without 0, O, I and l. */
  lemma AlphabetMeans(c: char)
    ensures InAlphabet(c) <==>
      ('1' <= c <= '9' || 'A' <= c <= 'Z' || 'a' <= c <= 'z') && c != 'O' && c != 'I' && c != 'l'
  {
    hide InAlphabet;
    if InAlphabet(c) {
      CharOfDigit(c);
      OnlyThese(DigitOf(c));
    }
    var k := c as int;
    if '1' <= c <= '9' { Place(k - 49); }
    if 'A' <= c <= 'H' { Place(k - 56); }
    if 'J' <= c <= 'N' { Place(k - 57); }
    if 'P' <= c <= 'Z' { Place(k - 58); }
    if 'a' <= c <= 'k' { Place(k - 64); }
    if 'm' <= c <= 'z' { Place(k - 65); }
  }

  lemma Place(k: nat)
    requires k < 58
    ensures InAlphabet(CharOf(k))
    ensures CharOf(k) as int ==
            k + if k < 9 then 49 else if k < 17 then 56 else if k < 22 then 57 else if k < 33 then 58
                else if k < 44 then 64 else 65
  {
    DigitOfChar(k);
    Code(k);
  }

  lemma Code(k: nat)
    requires k < 58
    ensures CharOf(k) as int ==
            k + if k < 9 then 49 else if k < 17 then 56 else if k < 22 then 57 else if k < 33 then 58
                else if k < 44 then 64 else 65
  {
    hide CharOf;
    if k < 33 { UpperCode(k); } else { LowerCode(k); }
  }

  lemma UpperCode(k: nat)
    requires k < 33
    ensures CharOf(k) as int == k + if k < 9 then 49 else if k < 17 then 56 else if k < 22 then 57 else 58
  {
    hide IndexFrom;
  }

  lemma LowerCode(k: nat)
    requires 33 <= k < 58
    ensures CharOf(k) as int == k + if k < 44 then 64 else 65
  {
    hide IndexFrom;
  }

  lemma OnlyThese(k: nat)
    requires k < 58
    ensures var c := CharOf(k);
      ('1' <= c <= '9' || 'A' <= c <= 'Z' || 'a' <= c <= 'z') && c != 'O' && c != 'I' && c != 'l'
  {
    hide CharOf;
    Place(k);
  }

  /** Text and bytes are big endian: one more character multiplies the number by 58, one more byte by
      256, and a one in front is a zero byte in front. */
  lemma BigEndian(s: string, c: char, b: seq<byte>, x: byte)
    requires AllInAlphabet(s) && InAlphabet(c)
    ensures Magnitude(Decoded(s + [c])) == 58 * Magnitude(Decoded(s)) + DigitOf(c)
    ensures Magnitude(b + [x]) == 256 * Magnitude(b) + x
    ensures Decoded(['1'] + s) == [0] + Decoded(s)
  {
    hide IndexFrom, InAlphabet, DigitOf, Digits, Value58, Leading;
    BytesOf(Leading(s, '1'), Value58(Rev(DigitsOf(s))));
    BytesOf(Leading(s + [c], '1'), Value58(Rev(DigitsOf(s + [c]))));
    OneMoreChar(s, c);
    assert Rev(b + [x]) == [x] + Rev(b);
    OneInFront(s);
  }

  lemma OneMoreChar(s: string, c: char)
    ensures Value58(Rev(DigitsOf(s + [c]))) == DigitOf(c) + 58 * Value58(Rev(DigitsOf(s)))
  {
    hide DigitOf;
    assert Rev(DigitsOf(s + [c])) == [DigitOf(c)] + Rev(DigitsOf(s));
  }

  lemma DigitOfOne()
    ensures DigitOf('1') == 0
  {
    FirstChar();
    DigitOfChar(0);
  }

  lemma OneInFront(s: string)
    ensures Decoded(['1'] + s) == [0] + Decoded(s)
  {
    hide IndexFrom, InAlphabet, DigitOf, CharOf, Digits, Value58;
    var t := ['1'] + s;
    assert t[1..] == s && Leading(t, '1') == 1 + Leading(s, '1');
    DigitOfOne();
    assert Rev(DigitsOf(t)) == Rev(DigitsOf(s)) + Copies<nat>(0, 1);
    ZerosOnTop58(Rev(DigitsOf(s)), 1);
    assert Copies<byte>(0, 1 + Leading(s, '1')) == [0] + Copies<byte>(0, Leading(s, '1'));
  }
}
