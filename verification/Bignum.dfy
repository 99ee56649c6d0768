/** `CBigNum` as a mathematical integer, with the byte form that `setvch` reads and `getvch` writes:
    little endian, the sign in the top bit of the last byte. */
module Bignum {
  import opened Wrappers

  /** The value of bytes with the least significant one first. */
  function Value(vch: seq<byte>): nat {
    if vch == [] then 0 else vch[0] + 256 * Value(vch[1..])
  }

  function Pow256(n: nat): nat { if n == 0 then 1 else 256 * Pow256(n - 1) }

  /** As few bytes as possible for a magnitude. */
  function Digits(n: nat): (vch: seq<byte>)
    ensures Value(vch) == n
    ensures vch != [] ==> vch[|vch| - 1] != 0
  {
    if n == 0 then [] else [n % 256] + Digits(n / 256)
  }

  function SetVch(vch: seq<byte>): int {
    if vch == [] then 0
    else
      var last := vch[|vch| - 1];
      if last >= 0x80 then 0 - Value(vch[|vch| - 1 := last - 0x80]) else Value(vch)
  }

  /** A byte of its own carries the sign when the top bit of the magnitude is taken. */
  function GetVch(bn: int): seq<byte> {
    var magnitude := Digits(if bn < 0 then -bn else bn);
    var sign := if bn < 0 then 0x80 else 0;
    if magnitude == [] then []
    else if magnitude[|magnitude| - 1] >= 0x80 then magnitude + [sign]
    else magnitude[|magnitude| - 1 := magnitude[|magnitude| - 1] + sign]
  }

  /** What is written is read back, for every number and either sign. */
  lemma SetGet(bn: int)
    ensures SetVch(GetVch(bn)) == bn
  {
    var magnitude := Digits(if bn < 0 then -bn else bn);
    if magnitude != [] {
      var k := |magnitude| - 1;
      if magnitude[k] >= 0x80 {
        ValueAppend(magnitude, 0);
        assert (magnitude + [0x80])[k + 1 := 0] == magnitude + [0];
      } else {
        assert magnitude[k := magnitude[k] + 0x80][k := magnitude[k]] == magnitude;
        assert magnitude[k := magnitude[k] + 0] == magnitude;
      }
    }
  }

  lemma {:induction false} ValueAppend(vch: seq<byte>, b: byte)
    ensures Value(vch + [b]) == Value(vch) + Pow256(|vch|) * b
  {
    if vch != [] {
      ValueAppend(vch[1..], b);
      assert (vch + [b])[1..] == vch[1..] + [b];
      MulAssoc(256, Pow256(|vch| - 1), b);
    }
  }

  lemma MulAssoc(a: nat, b: nat, c: nat)
    ensures a * (b * c) == (a * b) * c
  {
  }

  /** The minimal form is the only one without zeros at the top. */
  lemma {:induction false} DigitsOfValue(vch: seq<byte>)
    requires vch != [] ==> vch[|vch| - 1] != 0
    ensures Digits(Value(vch)) == vch
  {
    if vch != [] {
      DigitsOfValue(vch[1..]);
      if |vch| > 1 { NonzeroValue(vch[1..]); }
      assert Value(vch) % 256 == vch[0] && Value(vch) / 256 == Value(vch[1..]);
    }
  }

  lemma {:induction false} NonzeroValue(vch: seq<byte>)
    requires vch != [] && vch[|vch| - 1] != 0
    ensures Value(vch) > 0
  {
    if |vch| > 1 { NonzeroValue(vch[1..]); }
  }

  /** `getint`: numbers outside the range of an `int` are clamped to it. */
  function GetInt(bn: int): int {
    if bn > 0x7FFF_FFFF then 0x7FFF_FFFF else if bn < -0x7FFF_FFFF then -0x8000_0000 else bn
  }
}
