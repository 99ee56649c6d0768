/** OP_CHECKMULTISIG: a loop that looks at every key at most once decides whether the signatures can
    be matched to keys in order. */
module MultiSig {
  import opened Wrappers
  import Bignum

  type Bytes = seq<byte>

  const TRUE_VALUE: Bytes := [1]
  const FALSE_VALUE: Bytes := []
  const MAX_NUM_SIZE := 4
  const MAX_KEYS := 20
  const MAX_OPS := 201

  /** The judgements that come from outside: the two encoding checks and the signature check
      against the transaction and the script. */
  datatype Crypto = Crypto(fStrictEncodings: bool, canonicalSig: Bytes -> bool, canonicalKey: Bytes -> bool,
                           checkSig: (Bytes, Bytes) -> bool) {
    /** `sig` counts as a signature by `key`. */
    predicate Signs(sig: Bytes, key: Bytes) {
      (fStrictEncodings ==> canonicalSig(sig) && canonicalKey(key)) && checkSig(sig, key)
    }
  }

  /** `CastToBigNum(...).getint()`, which throws for a number of more than four bytes. */
  function Number(vch: Bytes): Option<int> {
    if |vch| > MAX_NUM_SIZE then None else Some(Bignum.GetInt(Bignum.SetVch(vch)))
  }

  function Top(stack: seq<Bytes>, i: nat): Bytes
    requires 1 <= i <= |stack|
  {
    stack[|stack| - i]
  }

  // ---------- what a value on the stack means ----------

  /** A value is false when it is zero, in any number of bytes and of either sign. */
  predicate IsTrue(vch: Bytes) {
    exists i :: 0 <= i < |vch| && vch[i] != 0 && !(i == |vch| - 1 && vch[i] == 0x80)
  }

  /** `CastToBool`: the first byte that is not zero decides. */
  method CastToBool(vch: Bytes) returns (f: bool)
    ensures f <==> IsTrue(vch)
  {
    for i := 0 to |vch|
      invariant forall k | 0 <= k < i :: vch[k] == 0
    {
      if vch[i] != 0 {
        if i == |vch| - 1 && vch[i] == 0x80 { return false; }
        return true;
      }
    }
    return false;
  }

  lemma {:induction false} ZeroBytes(vch: Bytes)
    ensures Bignum.Value(vch) == 0 <==> forall i | 0 <= i < |vch| :: vch[i] == 0
  {
    if vch != [] {
      ZeroBytes(vch[1..]);
      assert forall i | 1 <= i < |vch| :: vch[i] == vch[1..][i - 1];
    }
  }

  /** What counts as true is what is not zero as a number. */
  lemma TrueIsNotZero(vch: Bytes)
    ensures IsTrue(vch) <==> Bignum.SetVch(vch) != 0
  {
    if vch != [] {
      var k := |vch| - 1;
      var magnitude: Bytes := if vch[k] >= 0x80 then vch[k := vch[k] - 0x80] else vch;
      ZeroBytes(magnitude);
      if IsTrue(vch) {
        var i :| 0 <= i < |vch| && vch[i] != 0 && !(i == k && vch[i] == 0x80);
        assert magnitude[i] != 0;
      }
      if Bignum.Value(magnitude) != 0 {
        var i :| 0 <= i < |magnitude| && magnitude[i] != 0;
        assert vch[i] != 0 && !(i == k && vch[i] == 0x80);
      }
    }
  }

  lemma Answer(success: bool)
    ensures var vch := if success then TRUE_VALUE else FALSE_VALUE;
            (IsTrue(vch) <==> success) && Number(vch) == Some(if success then 1 else 0)
  {
    if success {
      assert TRUE_VALUE[0] != 0 && TRUE_VALUE[1..] == [];
      assert Bignum.Value(TRUE_VALUE) == TRUE_VALUE[0] + 256 * Bignum.Value([]);
      assert Bignum.SetVch(TRUE_VALUE) == 1;
    }
  }

  // ---------- what the operation decides ----------

  /** Assigns signatures from `a` on to keys from `b` on: in order, each key at most once. */
  ghost predicate Matching(c: Crypto, sigs: seq<Bytes>, keys: seq<Bytes>, a: nat, b: nat, f: seq<nat>) {
    && a <= |sigs| && b <= |keys| && |f| == |sigs| - a
    && (forall i | 0 <= i < |f| :: b <= f[i] < |keys| && c.Signs(sigs[a + i], keys[f[i]]))
    && forall i, j | 0 <= i < j < |f| :: f[i] < f[j]
  }

  ghost predicate Matchable(c: Crypto, sigs: seq<Bytes>, keys: seq<Bytes>, a: nat, b: nat) {
    exists f :: Matching(c, sigs, keys, a, b, f)
  }

  /** A key that does not fit the next signature is of no use to the later ones. */
  lemma SkipKey(c: Crypto, sigs: seq<Bytes>, keys: seq<Bytes>, a: nat, b: nat)
    requires a < |sigs| && b < |keys| && !c.Signs(sigs[a], keys[b])
    ensures Matchable(c, sigs, keys, a, b) <==> Matchable(c, sigs, keys, a, b + 1)
  {
    if Matchable(c, sigs, keys, a, b) {
      var f :| Matching(c, sigs, keys, a, b, f);
      assert sigs[a + 0] == sigs[a] && f[0] != b;
      assert Matching(c, sigs, keys, a, b + 1, f);
    }
    if Matchable(c, sigs, keys, a, b + 1) {
      var f :| Matching(c, sigs, keys, a, b + 1, f);
      assert Matching(c, sigs, keys, a, b, f);
    }
  }

  /** Taking the first key that fits never spoils a match. */
  lemma TakeKey(c: Crypto, sigs: seq<Bytes>, keys: seq<Bytes>, a: nat, b: nat)
    requires a < |sigs| && b < |keys| && c.Signs(sigs[a], keys[b])
    ensures Matchable(c, sigs, keys, a, b) <==> Matchable(c, sigs, keys, a + 1, b + 1)
  {
    if Matchable(c, sigs, keys, a, b) {
      var f :| Matching(c, sigs, keys, a, b, f);
      var g := f[1..];
      forall i | 0 <= i < |g| ensures b + 1 <= g[i] < |keys| && c.Signs(sigs[a + 1 + i], keys[g[i]]) {
        assert g[i] == f[i + 1] && f[0] < f[i + 1] && sigs[a + 1 + i] == sigs[a + (i + 1)];
      }
      assert Matching(c, sigs, keys, a + 1, b + 1, g);
    }
    if Matchable(c, sigs, keys, a + 1, b + 1) {
      var g :| Matching(c, sigs, keys, a + 1, b + 1, g);
      var f := [b] + g;
      forall i | 0 <= i < |f| ensures b <= f[i] < |keys| && c.Signs(sigs[a + i], keys[f[i]]) {
        if i > 0 { assert f[i] == g[i - 1] && sigs[a + 1 + (i - 1)] == sigs[a + i]; }
      }
      assert Matching(c, sigs, keys, a, b, f);
    }
  }

  /** With more signatures than keys there is no match. */
  lemma TooFewKeys(c: Crypto, sigs: seq<Bytes>, keys: seq<Bytes>, a: nat, b: nat)
    requires a <= |sigs| && b <= |keys| && |sigs| - a > |keys| - b
    ensures !Matchable(c, sigs, keys, a, b)
  {
    if Matchable(c, sigs, keys, a, b) {
      var f :| Matching(c, sigs, keys, a, b, f);
      Rises(f, b, |f| - 1);
    }
  }

  lemma {:induction false} Rises(f: seq<nat>, b: nat, i: nat)
    requires i < |f| && f[0] >= b && forall i, j | 0 <= i < j < |f| :: f[i] < f[j]
    ensures f[i] >= b + i
  {
    if i > 0 { Rises(f, b, i - 1); }
  }

  lemma AllMatched(c: Crypto, sigs: seq<Bytes>, keys: seq<Bytes>, b: nat)
    requires b <= |keys|
    ensures Matchable(c, sigs, keys, |sigs|, b)
  {
    assert Matching(c, sigs, keys, |sigs|, b, []);
  }

  // ---------- the arguments on the stack ----------

  /** The keys and signatures, topmost first, when the stack holds a well-formed call: the key
      count, the keys, the signature count, the signatures, and one value that is never used. */
  datatype Call = Call(keys: seq<Bytes>, sigs: seq<Bytes>) {
    function Size(): nat { 3 + |keys| + |sigs| }

    ghost predicate OnStack(stack: seq<Bytes>, nOpCount: nat) {
      && Size() <= |stack| && |sigs| <= |keys| <= MAX_KEYS && nOpCount + |keys| <= MAX_OPS
      && Number(Top(stack, 1)) == Some(|keys|)
      && (forall j | 0 <= j < |keys| :: keys[j] == Top(stack, 2 + j))
      && Number(Top(stack, 2 + |keys|)) == Some(|sigs|)
      && forall k | 0 <= k < |sigs| :: sigs[k] == Top(stack, 3 + |keys| + k)
    }
  }

  /** A stack holds at most one call. */
  lemma OneCall(stack: seq<Bytes>, nOpCount: nat, x: Call, y: Call)
    requires x.OnStack(stack, nOpCount) && y.OnStack(stack, nOpCount)
    ensures x == y
  {
  }

  datatype Result = Fail | Continue(stack: seq<Bytes>, nOpCount: nat)

  /** The operation: it fails unless the stack holds a call; otherwise it replaces the whole call by
      the answer, and the VERIFY form then wants the answer to be true. */
  method CheckMultiSig(stack0: seq<Bytes>, nOpCount0: nat, c: Crypto, verify: bool) returns (r: Result)
    ensures (forall call: Call :: !call.OnStack(stack0, nOpCount0)) ==> r == Fail
    ensures forall call: Call | call.OnStack(stack0, nOpCount0) ::
      var rest := stack0[..|stack0| - call.Size()];
      var success := Matchable(c, call.sigs, call.keys, 0, 0);
      r == if verify then (if success then Continue(rest, nOpCount0 + |call.keys|) else Fail)
           else Continue(rest + [if success then TRUE_VALUE else FALSE_VALUE], nOpCount0 + |call.keys|)
    ensures forall call: Call | call.OnStack(stack0, nOpCount0) && !verify ::
      && r.Continue? && |r.stack| == |stack0| - call.Size() + 1
      && (IsTrue(r.stack[|r.stack| - 1]) <==> Matchable(c, call.sigs, call.keys, 0, 0))
      && Number(r.stack[|r.stack| - 1]) == Some(if Matchable(c, call.sigs, call.keys, 0, 0) then 1 else 0)
  {
    hide Number, Matchable, Crypto.Signs, IsTrue;
    var stack, nOpCount := stack0, nOpCount0;
    var i := 1;
    if |stack| < i { return Fail; }
    var n := Number(Top(stack, i));
    if n.None? { return Fail; }
    var nKeysCount := n.value;
    if nKeysCount < 0 || nKeysCount > MAX_KEYS { return Fail; }
    nOpCount := nOpCount + nKeysCount;
    if nOpCount > MAX_OPS { return Fail; }
    i := i + 1;
    var ikey := i;
    i := i + nKeysCount;
    if |stack| < i { return Fail; }
    n := Number(Top(stack, i));
    if n.None? { return Fail; }
    var nSigsCount := n.value;
    if nSigsCount < 0 || nSigsCount > nKeysCount { return Fail; }
    i := i + 1;
    var isig := i;
    i := i + nSigsCount;
    if |stack| < i { return Fail; }

    ghost var call := Call(seq(nKeysCount, j requires 0 <= j < nKeysCount => Top(stack, ikey + j)),
                           seq(nSigsCount, k requires 0 <= k < nSigsCount => Top(stack, isig + k)));
    assert call.OnStack(stack0, nOpCount0);
    forall x: Call | x.OnStack(stack0, nOpCount0) ensures x == call { OneCall(stack0, nOpCount0, x, call); }

    var fSuccess := MatchLoop(stack, ikey, isig, nKeysCount, nSigsCount, c, call);

    while i > 0
      invariant 0 <= i <= |stack| && |stack| - i == |stack0| - call.Size() && stack == stack0[..|stack|]
    {
      i := i - 1;
      stack := stack[..|stack| - 1];
    }
    assert stack == stack0[..|stack0| - call.Size()];
    Answer(fSuccess);
    stack := stack + [if fSuccess then TRUE_VALUE else FALSE_VALUE];
    if verify {
      if !fSuccess { return Fail; }
      stack := stack[..|stack| - 1];
    }
    return Continue(stack, nOpCount);
  }

  /** The greedy loop.  Its two cursors stay on the keys and on the signatures of the call. */
  method MatchLoop(stack: seq<Bytes>, ikey0: nat, isig0: nat, nKeys: nat, nSigs: nat, c: Crypto, ghost call: Call)
    returns (fSuccess: bool)
    requires 1 <= ikey0 && 1 <= isig0 && ikey0 + nKeys <= |stack| + 1 && isig0 + nSigs <= |stack| + 1 && nSigs <= nKeys
    requires |call.keys| == nKeys && forall j | 0 <= j < nKeys :: call.keys[j] == Top(stack, ikey0 + j)
    requires |call.sigs| == nSigs && forall k | 0 <= k < nSigs :: call.sigs[k] == Top(stack, isig0 + k)
    ensures fSuccess <==> Matchable(c, call.sigs, call.keys, 0, 0)
  {
    hide Matchable;
    var ikey, isig, nKeysCount, nSigsCount := ikey0, isig0, nKeys, nSigs;
    fSuccess := true;
    while fSuccess && nSigsCount > 0
      invariant 0 <= nSigsCount <= nSigs && isig == isig0 + nSigs - nSigsCount
      invariant 0 <= nKeysCount <= nKeys && ikey == ikey0 + nKeys - nKeysCount
      invariant fSuccess <==> nSigsCount <= nKeysCount
      invariant Matchable(c, call.sigs, call.keys, 0, 0) <==>
                  Matchable(c, call.sigs, call.keys, nSigs - nSigsCount, nKeys - nKeysCount)
      decreases nKeysCount
    {
      ghost var a, b := nSigs - nSigsCount, nKeys - nKeysCount;
      assert ikey0 <= ikey < ikey0 + nKeys && isig0 <= isig < isig0 + nSigs;
      var vchSig, vchPubKey := Top(stack, isig), Top(stack, ikey);
      assert call.sigs[a] == vchSig && call.keys[b] == vchPubKey;
      var fOk := !c.fStrictEncodings || (c.canonicalSig(vchSig) && c.canonicalKey(vchPubKey));
      if fOk {
        fOk := c.checkSig(vchSig, vchPubKey);
      }
      if fOk {
        TakeKey(c, call.sigs, call.keys, a, b);
        isig := isig + 1;
        nSigsCount := nSigsCount - 1;
      } else {
        SkipKey(c, call.sigs, call.keys, a, b);
      }
      ikey := ikey + 1;
      nKeysCount := nKeysCount - 1;
      if nSigsCount > nKeysCount {
        fSuccess := false;
      }
    }
    if fSuccess {
      AllMatched(c, call.sigs, call.keys, nKeys - nKeysCount);
    } else {
      TooFewKeys(c, call.sigs, call.keys, nSigs - nSigsCount, nKeys - nKeysCount);
    }
  }
  // ---------- a whole call ----------

  /** What a script pushes: an unused value, the signatures, their number, the keys, their number; both
      lists are given topmost first. */
  function Pushed(below: seq<Bytes>, dummy: Bytes, sigs: seq<Bytes>, keys: seq<Bytes>): (stack: seq<Bytes>)
    ensures |stack| == |below| + 3 + |sigs| + |keys|
  {
    below + [dummy] + Reverse(sigs) + [Bignum.GetVch(|sigs|)] + Reverse(keys) + [Bignum.GetVch(|keys|)]
  }

  function Reverse(v: seq<Bytes>): (r: seq<Bytes>)
    ensures |r| == |v| && forall i | 0 <= i < |v| :: r[i] == v[|v| - 1 - i]
  {
    seq(|v|, i requires 0 <= i < |v| => v[|v| - 1 - i])
  }

  lemma CountRead(n: nat)
    ensures n <= 20 ==> Number(Bignum.GetVch(n)) == Some(n)
    ensures n > 20 ==> Number(Bignum.GetVch(n)).None? || Number(Bignum.GetVch(n)).value > 20
  {
    Bignum.SetGet(n);
    if n <= 20 {
      assert n / 256 == 0 && n % 256 == n && Bignum.Digits(0) == [];
      assert Bignum.Digits(n) == if n == 0 then [] else [n] + [];
      assert |Bignum.GetVch(n)| <= 1;
    }
  }

  lemma PushedTops(below: seq<Bytes>, dummy: Bytes, sigs: seq<Bytes>, keys: seq<Bytes>)
    ensures var stack := Pushed(below, dummy, sigs, keys);
      && Top(stack, 1) == Bignum.GetVch(|keys|)
      && (forall j | 0 <= j < |keys| :: keys[j] == Top(stack, 2 + j))
      && Top(stack, 2 + |keys|) == Bignum.GetVch(|sigs|)
      && (forall k | 0 <= k < |sigs| :: sigs[k] == Top(stack, 3 + |keys| + k))
      && stack[..|below|] == below
  {
  }

  /** The operation on what a script pushed: with at most 20 keys, no more signatures than keys, and at
      most 201 operations, it takes all of it off again and leaves a value that is true exactly when the
      signatures can be matched to keys in order; otherwise it fails. */
  method PushAndCheck(below: seq<Bytes>, dummy: Bytes, sigs: seq<Bytes>, keys: seq<Bytes>, nOpCount: nat, c: Crypto)
    returns (r: Result)
    ensures r == Fail <==> |keys| > 20 || |sigs| > |keys| || nOpCount + |keys| > 201
    ensures r.Continue? ==>
      && r.nOpCount == nOpCount + |keys| && |r.stack| == |below| + 1 && r.stack[..|below|] == below
      && (IsTrue(r.stack[|below|]) <==> Matchable(c, sigs, keys, 0, 0))
  {
    hide Number, Matchable, Crypto.Signs, IsTrue, Pushed;
    CountRead(|keys|);
    CountRead(|sigs|);
    PushedTops(below, dummy, sigs, keys);
    var stack := Pushed(below, dummy, sigs, keys);
    ghost var call := Call(keys, sigs);
    if |keys| <= 20 && |sigs| <= |keys| && nOpCount + |keys| <= 201 { assert call.OnStack(stack, nOpCount); }
    r := CheckMultiSig(stack, nOpCount, c, false);
  }
}
