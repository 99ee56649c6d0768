/** `CTxOutCompressor::CompressAmount` and its inverse: amounts with zeros at the end become small. */
module Amount {
  import opened Wrappers
  import opened Blocks

  const TWO_64 := 0x1_0000_0000_0000_0000

  function Times10(n: nat, e: nat): nat { if e == 0 then n else Times10(n, e - 1) * 10 }

  /** Takes zeros off the end until nine have gone; returns what is left and how many went. */
  function Strip(n: nat, e: nat): (r: (nat, nat))
    requires e <= 9
    ensures e <= r.1 <= 9 && r.0 <= n && (r.1 < 9 ==> r.0 % 10 != 0) && (n > 0 ==> r.0 > 0)
    decreases 9 - e
  {
    if n % 10 == 0 && e < 9 then Strip(n / 10, e + 1) else (n, e)
  }

  /** The code of an amount, in unbounded arithmetic. */
  function Compressed(n: nat): nat {
    if n == 0 then 0
    else
      var (m, e) := Strip(n, 0);
      if e < 9 then 1 + (m / 10 * 9 + m % 10 - 1) * 10 + e else 1 + (m - 1) * 10 + 9
  }

  function Decompressed(x: nat): nat {
    if x == 0 then 0
    else
      var e, y := (x - 1) % 10, (x - 1) / 10;
      Times10(if e < 9 then y / 9 * 10 + y % 9 + 1 else y + 1, e)
  }

  lemma {:induction false} StripBack(n: nat, e: nat)
    requires e <= 9
    ensures var (m, k) := Strip(n, e); Times10(m, k - e) == n
    decreases 9 - e
  {
    if n % 10 == 0 && e < 9 {
      StripBack(n / 10, e + 1);
    }
  }

  lemma {:induction false} StripTimes(m: nat, k: nat, e: nat)
    requires e + k <= 9 && m > 0 && (e + k < 9 ==> m % 10 != 0)
    ensures Strip(Times10(m, k), e) == (m, e + k)
    decreases k
  {
    if k > 0 {
      assert Times10(m, k) % 10 == 0 && Times10(m, k) / 10 == Times10(m, k - 1);
      StripTimes(m, k - 1, e + 1);
    }
  }

  /** Every amount comes back from its code. */
  lemma DecompressCompress(n: nat)
    ensures Decompressed(Compressed(n)) == n
  {
    hide Strip, Times10;
    if n > 0 {
      StripBack(n, 0);
      var (m, e) := Strip(n, 0);
      var x := Compressed(n);
      if e < 9 {
        var y := m / 10 * 9 + m % 10 - 1;
        assert (x - 1) % 10 == e && (x - 1) / 10 == y;
        assert y / 9 == m / 10 && y % 9 == m % 10 - 1;
      } else {
        assert (x - 1) % 10 == 9 && (x - 1) / 10 == m - 1;
      }
    }
  }

  /** Every code is the code of the amount it stands for, so the codes have no gaps. */
  lemma CompressDecompress(x: nat)
    ensures Compressed(Decompressed(x)) == x
  {
    hide Strip, Times10, Compressed;
    CompressedIs(Decompressed(x));
    if x > 0 {
      var e, y := (x - 1) % 10, (x - 1) / 10;
      var m := if e < 9 then y / 9 * 10 + y % 9 + 1 else y + 1;
      LastDigit(y / 9, y % 9 + 1);
      StripTimes(m, e, 0);
      TimesGrows(m, e);
    }
  }

  lemma LastDigit(q: nat, d: nat)
    requires d < 10
    ensures (q * 10 + d) / 10 == q && (q * 10 + d) % 10 == d
  {
  }

  lemma {:induction false} TimesGrows(m: nat, e: nat)
    ensures Times10(m, e) >= m
  {
    if e > 0 { TimesGrows(m, e - 1); }
  }

  /** The code of an amount up to a ninth of the range of `uint64` fits in `uint64`; every money value
      is far below that. */
  lemma CompressFits(n: nat)
    requires n <= TWO_64 / 9 - 1
    ensures Compressed(n) < TWO_64
    ensures n <= MAX_MONEY ==> Compressed(n) <= 9 * MAX_MONEY + 10
  {
  }

  /** `CompressAmount`, with its arithmetic in `uint64`. */
  method CompressAmount(n0: uint64) returns (x: uint64)
    ensures x == Compressed(n0) % TWO_64
    ensures n0 <= TWO_64 / 9 - 1 ==> x == Compressed(n0)
  {
    hide Compressed, Strip;
    CompressedIs(n0);
    if n0 <= TWO_64 / 9 - 1 { CompressFits(n0); }
    if n0 == 0 { return 0; }
    var n, e := n0, 0;
    while n % 10 == 0 && e < 9
      invariant 0 < n <= n0 && 0 <= e <= 9 && Strip(n, e) == Strip(n0, 0)
    {
      StripStep(n, e);
      n := n / 10;
      e := e + 1;
    }
    StripStep(n, e);
    var code: nat;
    if e < 9 {
      var d := n % 10;
      assert 1 <= d <= 9;
      n := n / 10;
      code := 1 + (n * 9 + d - 1) * 10 + e;
    } else {
      code := 1 + (n - 1) * 10 + 9;
    }
    assert code == Compressed(n0);
    x := code % TWO_64;
  }

  lemma StripStep(n: nat, e: nat)
    requires e <= 9
    ensures Strip(n, e) == if n % 10 == 0 && e < 9 then Strip(n / 10, e + 1) else (n, e)
  {
  }

  lemma CompressedIs(n: nat)
    ensures n == 0 ==> Compressed(n) == 0
    ensures n > 0 ==> var (m, e) := Strip(n, 0);
      Compressed(n) == if e < 9 then 1 + (m / 10 * 9 + m % 10 - 1) * 10 + e else 1 + (m - 1) * 10 + 9
  {
  }

  /** `DecompressAmount`, with its arithmetic in `uint64`. */
  method DecompressAmount(x0: uint64) returns (n: uint64)
    ensures n == Decompressed(x0) % TWO_64
  {
    if x0 == 0 { return 0; }
    var x := x0 - 1;
    var e := x % 10;
    x := x / 10;
    var r: nat := 0;
    if e < 9 {
      var d := x % 9 + 1;
      x := x / 9;
      r := x * 10 + d;
    } else {
      r := x + 1;
    }
    ghost var m, e0 := r, e;
    n := r % TWO_64;
    while e > 0
      invariant 0 <= e <= e0 && n == Times10(m, e0 - e) % TWO_64
    {
      WrapTen(Times10(m, e0 - e));
      n := (n * 10) % TWO_64;
      e := e - 1;
    }
  }

  lemma WrapTen(a: nat)
    ensures (a % TWO_64 * 10) % TWO_64 == (a * 10) % TWO_64
  {
    var q := a / TWO_64;
    assert a * 10 == a % TWO_64 * 10 + 10 * q * TWO_64;
  }

  /** Small amounts are their own words for what they are, round ones are short.  One of the values of
      the unit test is wrong: 0x1406f40 is the code of 21 million coins, not of 100 million. */
  lemma Examples()
    ensures Compressed(0) == 0 && Compressed(1) == 1 && Compressed(COIN / 100) == 7 && Compressed(COIN) == 9
    ensures Compressed(50 * COIN) == 0x32
    ensures Compressed(21_000_000 * COIN) == 0x1406f40 && Compressed(100_000_000 * COIN) == 0x5f5e100
  {
    StripTimes(1, 6, 0);
    StripTimes(1, 8, 0);
    StripTimes(5, 9, 0);
    StripTimes(2_100_000, 9, 0);
    StripTimes(10_000_000, 9, 0);
    Zeros(1);
    Zeros(5);
    Zeros(2_100_000);
    Zeros(10_000_000);
  }

  lemma Zeros(m: nat)
    ensures Times10(m, 6) == m * 1_000_000 && Times10(m, 8) == m * 100_000_000 && Times10(m, 9) == m * 1_000_000_000
  {
    assert Times10(m, 1) == m * 10;
    assert Times10(m, 3) == m * 1000;
    assert Times10(m, 5) == m * 100_000;
    assert Times10(m, 7) == m * 10_000_000;
  }
}
