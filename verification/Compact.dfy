/** Compact targets: a size in bytes and the leading bytes of a number, as `SetCompact` reads them and
    `GetCompact` writes them. */
module Compact {
  import opened Wrappers
  import opened Bignum

  function ShiftLeft(n: nat, k: nat): nat { if k == 0 then n else 256 * ShiftLeft(n, k - 1) }

  function ShiftRight(n: nat, k: nat): nat { if k == 0 then n else ShiftRight(n / 256, k - 1) }

  /** The top bit of the word is taken by the sign, so this is the first word that does not fit. */
  const WORD_LIMIT := 0x80_0000

  /** How many low bytes the compact form cannot hold. */
  function Lost(n: nat): nat { if n < WORD_LIMIT then 0 else 1 + Lost(n / 256) }

  /** The bytes it keeps, as a number. */
  function Kept(n: nat): nat { ShiftRight(n, Lost(n)) }

  /** The number with the lost bytes set to zero: what a target becomes on its way through the compact
      form. */
  function Rounded(n: nat): nat { ShiftLeft(Kept(n), Lost(n)) }

  /** The size byte of a number that loses nothing: one byte more than it has when its top bit is set. */
  function SmallSize(n: nat): nat { if n == 0 then 0 else if n < 0x80 then 1 else if n < 0x8000 then 2 else 3 }

  /** The compact form of a nonnegative number. */
  function CompactOf(n: nat): nat {
    if Lost(n) == 0 then SmallSize(n) * 0x100_0000 + ShiftLeft(n, 3 - SmallSize(n))
    else (Lost(n) + 3) * 0x100_0000 + Kept(n)
  }

  /** The number that a compact form stands for. */
  function TargetOf(nCompact: uint32): int {
    var nSize, nWord := nCompact / 0x100_0000, nCompact % WORD_LIMIT;
    var magnitude := if nSize <= 3 then ShiftRight(nWord, 3 - nSize) else ShiftLeft(nWord, nSize - 3);
    if nCompact / WORD_LIMIT % 2 == 1 then 0 - magnitude else magnitude
  }

  /** A word with size byte s and mantissa w stands for w times 256 to the power of s - 3, and for the
      negative of that when the top bit of the mantissa is set. */
  lemma TargetOfWord(nSize: nat, nWord: nat)
    requires 3 <= nSize < 256 && nWord < 0x80_0000
    ensures TargetOf(nSize * 0x100_0000 + nWord) == nWord * Pow256(nSize - 3)
    ensures TargetOf(nSize * 0x100_0000 + 0x80_0000 + nWord) == -(nWord * Pow256(nSize - 3))
  {
    hide ShiftLeft, ShiftRight, Pow256;
    WordParts(nSize, nWord, 0);
    WordParts(nSize, nWord, 1);
    ShiftIsProduct(nWord, nSize - 3);
    if nSize == 3 {
      NoShift(nWord);
      NoShiftRight(nWord);
    }
  }

  lemma WordParts(nSize: nat, nWord: nat, sign: nat)
    requires nWord < 0x80_0000 && sign < 2
    ensures var c := nSize * 0x100_0000 + sign * 0x80_0000 + nWord;
            c / 0x100_0000 == nSize && c % WORD_LIMIT == nWord && c / WORD_LIMIT % 2 == sign
  {
    var c := nSize * 0x100_0000 + sign * 0x80_0000 + nWord;
    assert c == (2 * nSize + sign) * 0x80_0000 + nWord;
    assert c / 0x80_0000 == 2 * nSize + sign;
  }

  lemma NoShiftRight(m: nat)
    ensures ShiftRight(m, 0) == m
  {
  }

  lemma {:induction false} ShiftIsProduct(m: nat, k: nat)
    ensures ShiftLeft(m, k) == m * Pow256(k)
  {
    if k > 0 {
      ShiftIsProduct(m, k - 1);
      MulAssoc(256, m, Pow256(k - 1));
    }
  }

  lemma {:induction false} KeptRange(n: nat)
    ensures Kept(n) < WORD_LIMIT && (Lost(n) > 0 ==> Kept(n) >= 0x8000) && (Lost(n) == 0 <==> n < WORD_LIMIT)
  {
    if n >= WORD_LIMIT { KeptRange(n / 256); }
  }

  lemma {:induction false} ShiftThere(m: nat, k: nat)
    ensures ShiftRight(ShiftLeft(m, k), k) == m
  {
    if k > 0 {
      assert ShiftLeft(m, k) / 256 == ShiftLeft(m, k - 1);
      ShiftThere(m, k - 1);
    }
  }

  lemma {:induction false} ShiftLeftMonotone(m: nat, n: nat, k: nat)
    requires m <= n
    ensures ShiftLeft(m, k) <= ShiftLeft(n, k)
  {
    if k > 0 { ShiftLeftMonotone(m, n, k - 1); }
  }

  lemma {:induction false} ShiftRightMonotone(m: nat, n: nat, k: nat)
    requires m <= n
    ensures ShiftRight(m, k) <= ShiftRight(n, k)
    decreases k
  {
    if k > 0 { ShiftRightMonotone(m / 256, n / 256, k - 1); }
  }

  lemma {:induction false} ShiftLeftAdds(m: nat, c: nat, k: nat)
    ensures ShiftLeft(m + c, k) == ShiftLeft(m, k) + ShiftLeft(c, k)
  {
    if k > 0 { ShiftLeftAdds(m, c, k - 1); }
  }

  lemma {:induction false} ShiftLeftScales(m: nat, k: nat)
    ensures ShiftLeft(0x8000 * m, k) == 0x8000 * ShiftLeft(m, k)
  {
    if k > 0 { ShiftLeftScales(m, k - 1); }
  }

  /** The compact form never makes a number larger, and loses at most one part in 2^15. */
  lemma RoundedBounds(n: nat)
    ensures Rounded(n) <= n && (n - Rounded(n)) * 0x8000 <= n
  {
    hide Lost, Kept, ShiftLeft;
    var k, m := Lost(n), Kept(n);
    KeptRange(n);
    KeptBounds(n);
    NoShift(m);
    if k > 0 {
      ShiftLeftAdds(m, 1, k);
      ShiftLeftScales(1, k);
      ShiftLeftMonotone(0x8000, m, k);
    }
  }

  lemma NoShift(m: nat)
    ensures ShiftLeft(m, 0) == m
  {
  }

  lemma KeptBounds(n: nat)
    ensures ShiftLeft(Kept(n), Lost(n)) <= n < ShiftLeft(Kept(n) + 1, Lost(n))
    ensures Lost(n) == 0 ==> Kept(n) == n
  {
  }

  /** A number below the next word limit loses fewer bytes. */
  lemma {:induction false} LostMonotone(a: nat, b: nat)
    requires a <= b
    ensures Lost(a) <= Lost(b)
    ensures Lost(a) < Lost(b) ==> a < ShiftLeft(0x8000, Lost(b)) <= b
    decreases b
  {
    if a >= WORD_LIMIT {
      LostMonotone(a / 256, b / 256);
    } else if b >= WORD_LIMIT {
      LostMonotone(0, b / 256);
      AtLeast(b / 256);
      assert ShiftLeft(0x8000, Lost(b)) == 256 * ShiftLeft(0x8000, Lost(b / 256));
      Grows(0x8000, Lost(b / 256));
    }
  }

  lemma AtLeast(n: nat)
    requires n >= 0x8000
    ensures n >= ShiftLeft(0x8000, Lost(n))
  {
  }

  lemma {:induction false} Grows(m: nat, k: nat)
    ensures ShiftLeft(m, k) >= m
  {
    if k > 0 { Grows(m, k - 1); }
  }

  /** A larger number never gets a smaller rounded one. */
  lemma RoundedMonotone(a: nat, b: nat)
    requires a <= b
    ensures Rounded(a) <= Rounded(b)
  {
    hide Lost, ShiftLeft, ShiftRight;
    LostMonotone(a, b);
    RoundedBounds(a);
    if Lost(a) == Lost(b) {
      ShiftRightMonotone(a, b, Lost(a));
      ShiftLeftMonotone(Kept(a), Kept(b), Lost(a));
    } else {
      KeptRange(b);
      ShiftLeftMonotone(0x8000, Kept(b), Lost(b));
    }
  }

  /** A rounded number has the same compact form as the number itself. */
  lemma RoundedSame(n: nat)
    ensures Lost(Rounded(n)) == Lost(n) && Kept(Rounded(n)) == Kept(n) && CompactOf(Rounded(n)) == CompactOf(n)
  {
    KeptRange(n);
    LostOfShift(Kept(n), Lost(n));
    ShiftThere(Kept(n), Lost(n));
    KeptBounds(n);
    NoShift(Kept(n));
  }

  lemma {:induction false} LostOfShift(m: nat, k: nat)
    requires m < WORD_LIMIT && (k > 0 ==> m >= 0x8000)
    ensures Lost(ShiftLeft(m, k)) == k
  {
    if k > 0 {
      Grows(m, k - 1);
      assert ShiftLeft(m, k) / 256 == ShiftLeft(m, k - 1);
      LostOfShift(m, k - 1);
    }
  }

  /** The size byte holds the size of numbers of up to 254 bytes; all targets have at most 32. */
  predicate Compactable(n: nat) { Lost(n) <= 252 }

  lemma CompactFits(n: nat)
    requires Compactable(n)
    ensures 0 <= CompactOf(n) < 0x1_0000_0000 && CompactOf(n) / WORD_LIMIT % 2 == 0
  {
    KeptRange(n);
    SmallWord(n);
  }

  lemma SmallWord(n: nat)
    ensures n < WORD_LIMIT ==> ShiftLeft(n, 3 - SmallSize(n)) < WORD_LIMIT
    ensures n < WORD_LIMIT ==> ShiftRight(ShiftLeft(n, 3 - SmallSize(n)), 3 - SmallSize(n)) == n
  {
    hide ShiftLeft, ShiftRight;
    ShiftThere(n, 3 - SmallSize(n));
    SmallShifts(n);
  }

  /** Decoding what was encoded gives the rounded number. */
  lemma TargetOfCompact(n: nat)
    requires Compactable(n)
    ensures 0 <= CompactOf(n) < 0x1_0000_0000 && TargetOf(CompactOf(n)) == Rounded(n)
  {
    hide ShiftLeft, ShiftRight, Lost, Kept, SmallSize;
    CompactFits(n);
    KeptRange(n);
    KeptBounds(n);
    SmallWord(n);
    SmallSizes(n);
    NoShift(Kept(n));
    var c := CompactOf(n);
    if Lost(n) == 0 {
      assert c / 0x100_0000 == SmallSize(n) && c % WORD_LIMIT == ShiftLeft(n, 3 - SmallSize(n));
    } else {
      assert c / 0x100_0000 == Lost(n) + 3 && c % WORD_LIMIT == Kept(n);
    }
  }

  lemma SmallSizes(n: nat)
    ensures SmallSize(n) <= 3
  {
  }

  /** The four promises of the compact form together. */
  lemma CompactPromises(a: nat, b: nat)
    requires Compactable(a) && Compactable(b) && a <= b
    ensures 0 <= CompactOf(a) < 0x1_0000_0000 && 0 <= CompactOf(b) < 0x1_0000_0000
    ensures var t := TargetOf(CompactOf(a)); 0 <= t <= a && (a - t) * 0x8000 <= a && CompactOf(t) == CompactOf(a)
    ensures TargetOf(CompactOf(a)) <= TargetOf(CompactOf(b))
  {
    TargetOfCompact(a);
    TargetOfCompact(b);
    RoundedBounds(a);
    RoundedSame(a);
    RoundedMonotone(a, b);
  }

  // ---------- the methods ----------

  /** `SetCompact`.  A zero is never negative. */
  method SetCompact(nCompact: uint32) returns (bn: int)
    ensures bn == TargetOf(nCompact)
  {
    hide ShiftLeft, ShiftRight;
    var nSize := nCompact / 0x100_0000;
    var fNegative := nCompact / WORD_LIMIT % 2 != 0;
    var nWord := nCompact % WORD_LIMIT;
    if nSize <= 3 {
      nWord := ShiftRight(nWord, 3 - nSize);
      bn := nWord;
    } else {
      bn := nWord;
      bn := ShiftLeft(bn, nSize - 3);
    }
    if fNegative && bn != 0 { bn := -bn; }
  }

  /** `BN_num_bytes` */
  function NumBytes(n: nat): nat { |Digits(n)| }

  lemma {:induction false} Bytes(n: nat)
    ensures n == 0 ==> NumBytes(n) == 0
    ensures n > 0 ==> NumBytes(n) == 1 + NumBytes(n / 256)
  {
  }

  /** The three leading bytes of a number tell how many bytes are lost and what is kept. */
  lemma {:induction false} TopBytes(n: nat)
    requires n >= 0x1_0000
    ensures NumBytes(n) >= 3
    ensures var w := ShiftRight(n, NumBytes(n) - 3);
      && 0x1_0000 <= w < 0x100_0000
      && if w >= WORD_LIMIT then Lost(n) == NumBytes(n) - 2 && Kept(n) == w / 256
         else Lost(n) == NumBytes(n) - 3 && Kept(n) == w
  {
    hide NumBytes;
    Bytes(n);
    Bytes(n / 256);
    Bytes(n / 65536);
    Bytes(n / 16777216);
    if n >= 0x100_0000 {
      TopBytes(n / 256);
    } else {
      assert n / 256 / 256 == n / 65536 && n / 65536 / 256 == 0;
      assert n >= WORD_LIMIT ==> Lost(n / 256) == 0 && ShiftRight(n, 1) == ShiftRight(n / 256, 0);
    }
  }

  lemma FewBytes(n: nat)
    requires n < 0x1_0000
    ensures NumBytes(n) == if n == 0 then 0 else if n < 0x100 then 1 else 2
  {
    hide NumBytes;
    Bytes(n);
    Bytes(n / 256);
    Bytes(n / 65536);
  }

  function Abs(n: int): nat { if n < 0 then -n else n }

  /** The word for a number of either sign.  The size byte wraps for numbers of more than 254 bytes. */
  function Encoded(bn: int): int {
    CompactOf(Abs(bn)) % 0x1_0000_0000 + if bn < 0 then WORD_LIMIT else 0
  }

  lemma EncodedCompactable(n: nat)
    requires Compactable(n)
    ensures Encoded(n) == CompactOf(n)
  {
    hide CompactOf;
    CompactFits(n);
  }

  /** `GetCompact`. */
  method GetCompact(bn: int) returns (nCompact: uint32)
    ensures nCompact == Encoded(bn)
  {
    hide NumBytes, ShiftRight, ShiftLeft, Lost, Kept, SmallSize, CompactOf;
    ghost var n := Abs(bn);
    var magnitude := if bn < 0 then -bn else bn;
    var nSize := NumBytes(magnitude);
    var word: nat := 0;
    if nSize <= 3 {
      word := ShiftLeft(magnitude, 3 - nSize);
    } else {
      word := ShiftRight(magnitude, nSize - 3);
    }
    if word / WORD_LIMIT % 2 != 0 {
      word := word / 256;
      nSize := nSize + 1;
    }
    SizeAndWord(n, nSize, word);
    SizeWraps(word, nSize);
    nCompact := word + nSize % 0x100 * 0x100_0000 + if bn < 0 then WORD_LIMIT else 0;
  }

  lemma SizeWraps(word: nat, nSize: nat)
    requires word < WORD_LIMIT
    ensures (word + nSize * 0x100_0000) % 0x1_0000_0000 == word + nSize % 0x100 * 0x100_0000 < 0xFF80_0000
  {
    var q, r := nSize / 0x100, nSize % 0x100;
    assert nSize == 0x100 * q + r;
    Wraps(word + r * 0x100_0000, q);
  }

  lemma Wraps(a: nat, q: nat)
    requires a < 0x1_0000_0000
    ensures (a + q * 0x1_0000_0000) % 0x1_0000_0000 == a
  {
  }

  /** What the two branches and the correction leave is the size and the word of the compact form. */
  lemma SizeAndWord(n: nat, nSize: nat, word: nat)
    requires var k := NumBytes(n);
      var w := if k <= 3 then ShiftLeft(n, 3 - k) else ShiftRight(n, k - 3);
      if w / WORD_LIMIT % 2 != 0 then word == w / 256 && nSize == k + 1 else word == w && nSize == k
    ensures word + nSize * 0x100_0000 == CompactOf(n) && word < WORD_LIMIT
  {
    hide NumBytes, ShiftLeft, ShiftRight, Lost, Kept;
    KeptRange(n);
    SmallShifts(n);
    if n >= 0x1_0000 {
      TopBytes(n);
      KeptBounds(n);
    } else {
      FewBytes(n);
    }
  }

  lemma SmallShifts(n: nat)
    ensures ShiftRight(n, 0) == n == ShiftLeft(n, 0) && ShiftLeft(n, 1) == 256 * n && ShiftLeft(n, 2) == 65536 * n &&
            ShiftLeft(n, 3) == 16777216 * n
  {
    assert ShiftLeft(n, 1) == 256 * ShiftLeft(n, 0);
    assert ShiftLeft(n, 2) == 256 * ShiftLeft(n, 1);
    assert ShiftLeft(n, 3) == 256 * ShiftLeft(n, 2);
  }
}
