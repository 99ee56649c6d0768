/** The partial Merkle tree of BIP 37, section "Partial Merkle branch format": building one,
    packing its bits into bytes, and extracting the matched transactions again. */
module PartialMerkle {
  import opened Wrappers
  import opened Bits
  import opened Merkle

  const MAX_BLOCK_SIZE := 1_000_000

  // ---------- the leaves under a node ----------

  function Lo(height: nat, pos: nat): nat { pos * Pow2(height) }

  function Hi(n: nat, height: nat, pos: nat): nat { Min((pos + 1) * Pow2(height), n) }

  lemma {:induction false} WidthMeans(n: nat, height: nat, pos: nat)
    ensures pos < Width(n, height) <==> Lo(height, pos) < n
  {
    hide Lo;
    if height > 0 {
      WidthMeans(n, height - 1, 2 * pos);
      ChildStarts(height, pos);
    } else {
      LeafStarts(pos);
    }
  }

  lemma LeafStarts(pos: nat)
    ensures Lo(0, pos) == pos
  {
  }

  /** Where the children of a node start, in terms of where the node starts. */
  lemma ChildStarts(height: nat, pos: nat)
    requires height > 0
    ensures var p := Pow2(height - 1);
            && p > 0
            && Lo(height - 1, 2 * pos) == Lo(height, pos)
            && Lo(height - 1, 2 * pos + 1) == Lo(height, pos) + p
            && Lo(height - 1, 2 * pos + 2) == Lo(height, pos + 1) == Lo(height, pos) + 2 * p
  {
  }

  lemma SplitRange(n: nat, height: nat, pos: nat)
    requires height > 0 && pos < Width(n, height)
    ensures 2 * pos < Width(n, height - 1) && Lo(height - 1, 2 * pos) == Lo(height, pos) < Hi(n, height, pos) <= n
    ensures Lo(height - 1, 2 * pos) < Hi(n, height - 1, 2 * pos)
    ensures if 2 * pos + 1 < Width(n, height - 1)
            then Hi(n, height - 1, 2 * pos) == Lo(height - 1, 2 * pos + 1) < Hi(n, height, pos) ==
              Hi(n, height - 1, 2 * pos + 1)
            else Hi(n, height - 1, 2 * pos) == Hi(n, height, pos)
  {
    WidthMeans(n, height, pos);
    WidthMeans(n, height - 1, 2 * pos + 1);
    ChildStarts(height, pos);
    HiIsNextLo(n, height, pos);
    HiIsNextLo(n, height - 1, 2 * pos);
    HiIsNextLo(n, height - 1, 2 * pos + 1);
    hide Lo, Hi;
  }

  lemma HiIsNextLo(n: nat, height: nat, pos: nat)
    ensures Hi(n, height, pos) == Min(Lo(height, pos + 1), n)
  {
  }

  /** Whether a leaf in a range is flagged. */
  predicate AnyFlag(vMatch: seq<bool>, lo: nat, hi: nat)
    requires hi <= |vMatch|
  {
    exists p :: lo <= p < hi && vMatch[p]
  }

  /** The flagged leaves of a range, in order. */
  ghost function Flagged(vTxid: seq<Uint256>, vMatch: seq<bool>, lo: nat, hi: nat): seq<Uint256>
    requires hi <= |vTxid| == |vMatch|
    decreases hi
  {
    if lo >= hi then [] else Flagged(vTxid, vMatch, lo, hi - 1) + if vMatch[hi - 1] then [vTxid[hi - 1]] else []
  }

  lemma {:induction false} FlaggedSplit(vTxid: seq<Uint256>, vMatch: seq<bool>, lo: nat, mid: nat, hi: nat)
    requires lo <= mid <= hi <= |vTxid| == |vMatch|
    ensures Flagged(vTxid, vMatch, lo, hi) == Flagged(vTxid, vMatch, lo, mid) + Flagged(vTxid, vMatch, mid, hi)
    decreases hi
  {
    if mid < hi { FlaggedSplit(vTxid, vMatch, lo, mid, hi - 1); }
  }

  lemma {:induction false} FlaggedNone(vTxid: seq<Uint256>, vMatch: seq<bool>, lo: nat, hi: nat)
    requires hi <= |vTxid| == |vMatch| && !AnyFlag(vMatch, lo, hi)
    ensures Flagged(vTxid, vMatch, lo, hi) == []
    decreases hi
  {
    if lo < hi { FlaggedNone(vTxid, vMatch, lo, hi - 1); }
  }

  // ---------- building ----------

  /** The bits and hashes of the subtree at (height, pos): one bit a node visited, one hash a
      node where the visit stops. */
  ghost function Built(hash: Hasher, vTxid: seq<Uint256>, vMatch: seq<bool>, height: nat,
                       pos: nat): (r: (seq<bool>, seq<Uint256>))
    requires pos < Width(|vTxid|, height) && |vMatch| == |vTxid|
  {
    SubtreeRange(|vTxid|, height, pos);
    var fParentOfMatch := AnyFlag(vMatch, Lo(height, pos), Hi(|vTxid|, height, pos));
    if height == 0 || !fParentOfMatch then ([fParentOfMatch], [CalcHash(hash, vTxid, height, pos)]) else
      var left := Built(hash, vTxid, vMatch, height - 1, 2 * pos);
      if 2 * pos + 1 < Width(|vTxid|, height - 1) then
        var right := Built(hash, vTxid, vMatch, height - 1, 2 * pos + 1);
        ([true] + left.0 + right.0, left.1 + right.1)
      else
        ([true] + left.0, left.1)
  }

  lemma SubtreeRange(n: nat, height: nat, pos: nat)
    requires pos < Width(n, height)
    ensures Lo(height, pos) < Hi(n, height, pos) <= n
    ensures height == 0 ==> Lo(height, pos) == pos && Hi(n, height, pos) == pos + 1
    ensures height > 0 ==> 2 * pos < Width(n, height - 1)
  {
    WidthMeans(n, height, pos);
    assert (pos + 1) * Pow2(height) == pos * Pow2(height) + Pow2(height);
  }

  /** What a visit adds, by what it finds. */
  lemma BuiltCases(hash: Hasher, vTxid: seq<Uint256>, vMatch: seq<bool>, height: nat, pos: nat)
    requires pos < Width(|vTxid|, height) && |vMatch| == |vTxid|
    ensures Hi(|vTxid|, height, pos) <= |vTxid| && (height > 0 ==> 2 * pos < Width(|vTxid|, height - 1))
    ensures var fParentOfMatch := AnyFlag(vMatch, Lo(height, pos), Hi(|vTxid|, height, pos));
            Built(hash, vTxid, vMatch, height, pos) ==
            if height == 0 || !fParentOfMatch then ([fParentOfMatch], [CalcHash(hash, vTxid, height, pos)])
            else var left := Built(hash, vTxid, vMatch, height - 1, 2 * pos);
              if 2 * pos + 1 < Width(|vTxid|, height - 1) then
                var right := Built(hash, vTxid, vMatch, height - 1, 2 * pos + 1);
                  ([true] + left.0 + right.0, left.1 + right.1)
              else ([true] + left.0, left.1)
  {
    SubtreeRange(|vTxid|, height, pos);
  }

  lemma Joined<T>(a: seq<T>, b: seq<T>, c: seq<T>)
    ensures a + b + c == a + (b + c)
  {
  }

  /** A subtree needs at least one hash, and never more than it has leaves or bits. */
  lemma {:induction false} BuiltSize(hash: Hasher, vTxid: seq<Uint256>, vMatch: seq<bool>, height: nat, pos: nat)
    requires pos < Width(|vTxid|, height) && |vMatch| == |vTxid|
    ensures var (bits, hashes) := Built(hash, vTxid, vMatch, height, pos);
            1 <= |hashes| <= |bits| && |hashes| <= Hi(|vTxid|, height, pos) - Lo(height, pos)
  {
    hide Lo, Hi, Width, CalcHash;
    SubtreeRange(|vTxid|, height, pos);
    if height > 0 {
      SplitRange(|vTxid|, height, pos);
      BuiltSize(hash, vTxid, vMatch, height - 1, 2 * pos);
      if 2 * pos + 1 < Width(|vTxid|, height - 1) { BuiltSize(hash, vTxid, vMatch, height - 1, 2 * pos + 1); }
    }
  }

  // ---------- extracting ----------

  datatype Cursor = Cursor(nBitsUsed: nat, nHashUsed: nat, vMatch: seq<Uint256>, fBad: bool)

  /** `TraverseAndExtract`: the hash of the node and what has been used and found so far.
      Running out of bits or hashes yields hash 0 and goes on. */
  function Extract(hash: Hasher, n: nat, vBits: seq<bool>, vHash: seq<Uint256>, height: nat, pos: nat,
                   c: Cursor): (Uint256, Cursor)
    decreases height
  {
    if c.nBitsUsed >= |vBits| then (0, c.(fBad := true)) else
      var fParentOfMatch := vBits[c.nBitsUsed];
      var c1 := c.(nBitsUsed := c.nBitsUsed + 1);
      if height == 0 || !fParentOfMatch then
        if c1.nHashUsed >= |vHash| then (0, c1.(fBad := true)) else
          var h := vHash[c1.nHashUsed];
          (h, c1.(nHashUsed := c1.nHashUsed + 1,
            vMatch := if height == 0 && fParentOfMatch then c1.vMatch + [h] else c1.vMatch))
      else
        var (left, c2) := Extract(hash, n, vBits, vHash, height - 1, 2 * pos, c1);
        if 2 * pos + 1 < Width(n, height - 1) then
          var (right, c3) := Extract(hash, n, vBits, vHash, height - 1, 2 * pos + 1, c2);
          (hash(left, right), c3)
        else
          (hash(left, left), c2)
  }

  /** `part` stands in `whole` at position k. */
  ghost predicate StandsAt<T>(whole: seq<T>, k: nat, part: seq<T>) {
    k + |part| <= |whole| && forall i | 0 <= i < |part| :: part[i] == whole[k + i]
  }

  lemma StandsAtSplit<T>(whole: seq<T>, k: nat, a: seq<T>, b: seq<T>)
    requires StandsAt(whole, k, a + b)
    ensures StandsAt(whole, k, a) && StandsAt(whole, k + |a|, b)
  {
    forall i | 0 <= i < |a| ensures a[i] == whole[k + i] { assert (a + b)[i] == a[i]; }
    forall i | 0 <= i < |b| ensures b[i] == whole[k + |a| + i] { assert (a + b)[|a| + i] == b[i]; }
  }

  /** The input from a cursor on starts with what building the subtree produced. */
  ghost predicate Reads(vBits: seq<bool>, vHash: seq<Uint256>, c: Cursor, built: (seq<bool>, seq<Uint256>)) {
    StandsAt(vBits, c.nBitsUsed, built.0) && StandsAt(vHash, c.nHashUsed, built.1)
  }

  ghost function Advance(c: Cursor, built: (seq<bool>, seq<Uint256>), found: seq<Uint256>): Cursor {
    c.(nBitsUsed := c.nBitsUsed + |built.0|, nHashUsed := c.nHashUsed + |built.1|, vMatch := c.vMatch + found)
  }

  lemma ReadsSplit(vBits: seq<bool>, vHash: seq<Uint256>, c: Cursor, left: (seq<bool>, seq<Uint256>),
                   right: (seq<bool>, seq<Uint256>), found: seq<Uint256>)
    requires Reads(vBits, vHash, c, ([true] + left.0 + right.0, left.1 + right.1))
    ensures c.nBitsUsed < |vBits| && vBits[c.nBitsUsed]
    ensures Reads(vBits, vHash, c.(nBitsUsed := c.nBitsUsed + 1), left)
    ensures Reads(vBits, vHash, Advance(c.(nBitsUsed := c.nBitsUsed + 1), left, found), right)
  {
    hide StandsAt;
    StandsAtSplit(vBits, c.nBitsUsed, [true] + left.0, right.0);
    StandsAtSplit(vBits, c.nBitsUsed, [true], left.0);
    StandsAtSplit(vHash, c.nHashUsed, left.1, right.1);
    StandsAtFirst(vBits, c.nBitsUsed, [true]);
  }

  lemma StandsAtFirst<T>(whole: seq<T>, k: nat, part: seq<T>)
    requires StandsAt(whole, k, part) && part != []
    ensures k < |whole| && whole[k] == part[0]
  {
  }

  /** Extracting what was built gives the hash of the node and its flagged leaves, and uses
      exactly the bits and hashes that were built. */
  lemma {:induction false} ExtractBuilt(hash: Hasher, vTxid: seq<Uint256>, vMatch: seq<bool>, height: nat, pos: nat,
                                        vBits: seq<bool>, vHash: seq<Uint256>, c: Cursor)
    requires pos < Width(|vTxid|, height) && |vMatch| == |vTxid| && Hi(|vTxid|, height, pos) <= |vTxid|
    requires Reads(vBits, vHash, c, Built(hash, vTxid, vMatch, height, pos))
    ensures Extract(hash, |vTxid|, vBits, vHash, height, pos, c) ==
            (CalcHash(hash, vTxid, height, pos),
             Advance(c, Built(hash, vTxid, vMatch, height, pos),
               Flagged(vTxid, vMatch, Lo(height, pos), Hi(|vTxid|, height, pos))))
    decreases height
  {
    hide Lo, Hi, Width, Advance, Reads, Flagged, AnyFlag;
    var n, built := |vTxid|, Built(hash, vTxid, vMatch, height, pos);
    SubtreeRange(n, height, pos);
    var fParentOfMatch := AnyFlag(vMatch, Lo(height, pos), Hi(n, height, pos));
    if height == 0 || !fParentOfMatch {
      StopsHere(hash, vTxid, vMatch, height, pos, vBits, vHash, c);
    } else {
      SplitRange(n, height, pos);
      var left := Built(hash, vTxid, vMatch, height - 1, 2 * pos);
      var c1 := c.(nBitsUsed := c.nBitsUsed + 1);
      var found := Flagged(vTxid, vMatch, Lo(height - 1, 2 * pos), Hi(n, height - 1, 2 * pos));
      if 2 * pos + 1 < Width(n, height - 1) {
        var right := Built(hash, vTxid, vMatch, height - 1, 2 * pos + 1);
        ReadsSplit(vBits, vHash, c, left, right, found);
        ExtractBuilt(hash, vTxid, vMatch, height - 1, 2 * pos, vBits, vHash, c1);
        ExtractBuilt(hash, vTxid, vMatch, height - 1, 2 * pos + 1, vBits, vHash, Advance(c1, left, found));
        FlaggedSplit(vTxid, vMatch, Lo(height, pos), Hi(n, height - 1, 2 * pos), Hi(n, height, pos));
        var found' := Flagged(vTxid, vMatch, Lo(height - 1, 2 * pos + 1), Hi(n, height - 1, 2 * pos + 1));
        AdvanceTwice(c, left, right, found, found');
      } else {
        OnlyLeft(left);
        assert built == ([true] + left.0 + [], left.1 + []);
        ReadsSplit(vBits, vHash, c, left, ([], []), found);
        ExtractBuilt(hash, vTxid, vMatch, height - 1, 2 * pos, vBits, vHash, c1);
        AdvanceTwice(c, left, ([], []), found, []);
      }
    }
  }

  /** Using up the flag of a node and then both its subtrees is using up the node. */
  lemma AdvanceTwice(c: Cursor, left: (seq<bool>, seq<Uint256>), right: (seq<bool>, seq<Uint256>), found: seq<Uint256>,
                     found': seq<Uint256>)
    ensures Advance(Advance(c.(nBitsUsed := c.nBitsUsed + 1), left, found), right, found') ==
      Advance(c, ([true] + left.0 + right.0, left.1 + right.1), found + found')
    ensures right == ([], []) && found' == [] ==>
      Advance(c.(nBitsUsed := c.nBitsUsed + 1), left, found) == Advance(c, ([true] + left.0, left.1), found)
  {
  }

  lemma OnlyLeft(left: (seq<bool>, seq<Uint256>))
    ensures [true] + left.0 + [] == [true] + left.0 && left.1 + [] == left.1
  {
  }

  lemma LeafFlagged(vTxid: seq<Uint256>, vMatch: seq<bool>, pos: nat)
    requires pos < |vTxid| == |vMatch|
    ensures AnyFlag(vMatch, pos, pos + 1) == vMatch[pos]
    ensures Flagged(vTxid, vMatch, pos, pos + 1) == if vMatch[pos] then [vTxid[pos]] else []
  {
  }

  lemma StopsHere(hash: Hasher, vTxid: seq<Uint256>, vMatch: seq<bool>, height: nat, pos: nat, vBits: seq<bool>,
                  vHash: seq<Uint256>, c: Cursor)
    requires pos < Width(|vTxid|, height) && |vMatch| == |vTxid| &&
             Lo(height, pos) < Hi(|vTxid|, height, pos) <= |vTxid|
    requires height == 0 || !AnyFlag(vMatch, Lo(height, pos), Hi(|vTxid|, height, pos))
    requires Reads(vBits, vHash, c, Built(hash, vTxid, vMatch, height, pos))
    ensures Extract(hash, |vTxid|, vBits, vHash, height, pos, c) ==
            (CalcHash(hash, vTxid, height, pos),
             Advance(c, Built(hash, vTxid, vMatch, height, pos),
               Flagged(vTxid, vMatch, Lo(height, pos), Hi(|vTxid|, height, pos))))
  {
    hide StandsAt, Lo, Hi, Width, Flagged, AnyFlag;
    SubtreeRange(|vTxid|, height, pos);
    var lo, hi := Lo(height, pos), Hi(|vTxid|, height, pos);
    var built := Built(hash, vTxid, vMatch, height, pos);
    assert built == ([AnyFlag(vMatch, lo, hi)], [CalcHash(hash, vTxid, height, pos)]);
    assert c.vMatch + [] == c.vMatch;
    StandsAtFirst(vBits, c.nBitsUsed, built.0);
    StandsAtFirst(vHash, c.nHashUsed, built.1);
    if height == 0 {
      LeafFlagged(vTxid, vMatch, pos);
    } else {
      FlaggedNone(vTxid, vMatch, lo, hi);
    }
  }

  /** `ExtractMatches`: the claimed root, 0 when the proof is refused, and the matches. */
  function ExtractAll(hash: Hasher, n: nat, vBits: seq<bool>, vHash: seq<Uint256>,
                      fBad: bool): (Uint256, seq<Uint256>) {
    if n == 0 || n > MAX_BLOCK_SIZE / 60 || |vHash| > n || |vBits| < |vHash| then (0, []) else
      var (root, c) := Extract(hash, n, vBits, vHash, Top(n), 0, Cursor(0, 0, [], fBad));
      (if c.fBad || (c.nBitsUsed + 7) / 8 != (|vBits| + 7) / 8 || c.nHashUsed != |vHash| then 0 else root, c.vMatch)
  }

  /** The round trip: what was built from a block, padded to whole bytes, extracts to the
      block's root and to exactly the flagged transactions, in order. */
  lemma RoundTrip(hash: Hasher, vTxid: seq<Uint256>, vMatch: seq<bool>, padding: seq<bool>)
    requires 0 < |vTxid| == |vMatch| <= 16_666
    requires var bits := Built(hash, vTxid, vMatch, Top(|vTxid|), 0).0;
             (|bits| + |padding| + 7) / 8 == (|bits| + 7) / 8
    ensures var (bits, hashes) := Built(hash, vTxid, vMatch, Top(|vTxid|), 0);
            ExtractAll(hash, |vTxid|, bits + padding, hashes, false) ==
            (CalcHash(hash, vTxid, Top(|vTxid|), 0), Flagged(vTxid, vMatch, 0, |vTxid|))
  {
    hide Width, CalcHash, Lo, Hi;
    var top, built := Top(|vTxid|), Built(hash, vTxid, vMatch, Top(|vTxid|), 0);
    WholeRange(|vTxid|);
    BuiltSize(hash, vTxid, vMatch, top, 0);
    ExtractBuilt(hash, vTxid, vMatch, top, 0, built.0 + padding, built.1, Cursor(0, 0, [], false));
    assert [] + Flagged(vTxid, vMatch, 0, |vTxid|) == Flagged(vTxid, vMatch, 0, |vTxid|);
  }

  /** The root covers every leaf. */
  lemma WholeRange(n: nat)
    requires n > 0
    ensures Lo(Top(n), 0) == 0 && Hi(n, Top(n), 0) == n
  {
    WidthMeans(n, Top(n), 1);
  }

  // ---------- soundness ----------

  /** A visit that runs into no end reads the same from longer lists. */
  lemma {:induction false} ReadsNoFurther(hash: Hasher, n: nat, vBits: seq<bool>, vHash: seq<Uint256>, height: nat,
                                          pos: nat, c: Cursor, bits: seq<bool>, hashes: seq<Uint256>)
    requires !Extract(hash, n, vBits, vHash, height, pos, c).1.fBad
    ensures Extract(hash, n, vBits + bits, vHash + hashes, height, pos, c) ==
            Extract(hash, n, vBits, vHash, height, pos, c)
    decreases height
  {
    hide Width;
    if height > 0 && vBits[c.nBitsUsed] {
      var c1 := c.(nBitsUsed := c.nBitsUsed + 1);
      var c2 := Extract(hash, n, vBits, vHash, height - 1, 2 * pos, c1).1;
      if c2.fBad { BadStaysBad(hash, n, vBits, vHash, height - 1, 2 * pos + 1, c2); }
      ReadsNoFurther(hash, n, vBits, vHash, height - 1, 2 * pos, c1, bits, hashes);
      if 2 * pos + 1 < Width(n, height - 1) {
        ReadsNoFurther(hash, n, vBits, vHash, height - 1, 2 * pos + 1, c2, bits, hashes);
      }
    }
  }

  /** Nothing can be added to a proof that is not refused: with one more hash, or with bits that need
      another byte, it is refused.  Bits that fill up the last byte change nothing. */
  lemma NothingToAdd(hash: Hasher, n: nat, vBits: seq<bool>, vHash: seq<Uint256>, bits: seq<bool>, hashes: seq<Uint256>)
    requires ExtractAll(hash, n, vBits, vHash, false).0 != 0
    ensures ExtractAll(hash, n, vBits + bits, vHash + hashes, false).0 ==
            if hashes == [] && (|vBits| + |bits| + 7) / 8 == (|vBits| + 7) / 8
            then ExtractAll(hash, n, vBits, vHash, false).0 else 0
    ensures hashes == [] ==> ExtractAll(hash, n, vBits + bits, vHash, false).1 ==
                             ExtractAll(hash, n, vBits, vHash, false).1
  {
    hide Extract, TopFrom;
    ReadsNoFurther(hash, n, vBits, vHash, Top(n), 0, Cursor(0, 0, [], false), bits, hashes);
    assert vHash + [] == vHash;
  }

  /** What is refused unread: no transactions or more than a block has room for, more hashes than
      transactions, fewer bits than hashes. */
  lemma RefusedUnread(hash: Hasher, n: nat, vBits: seq<bool>, vHash: seq<Uint256>, fBad: bool)
    requires n == 0 || n > 16_666 || |vHash| > n || |vHash| > |vBits|
    ensures ExtractAll(hash, n, vBits, vHash, fBad) == (0, [])
  {
  }


  /** No two pairs hash alike. */
  ghost predicate Injective(hash: Hasher) {
    forall a: Uint256, b: Uint256, c: Uint256, d: Uint256 :: hash(a, b) == hash(c, d) ==> a == c && b == d
  }

  /** `found` lists the leaves at the strictly increasing positions `at`, all in [lo, hi). */
  ghost predicate LeavesAt(vTxid: seq<Uint256>, found: seq<Uint256>, at: seq<nat>, lo: nat, hi: nat)
    requires hi <= |vTxid|
  {
    && |at| == |found|
    && (forall i | 0 <= i < |at| :: lo <= at[i] < hi && found[i] == vTxid[at[i]])
    && forall i, j | 0 <= i < j < |at| :: at[i] < at[j]
  }

  lemma {:induction false} BadStaysBad(hash: Hasher, n: nat, vBits: seq<bool>, vHash: seq<Uint256>, height: nat,
                                       pos: nat, c: Cursor)
    requires c.fBad
    ensures Extract(hash, n, vBits, vHash, height, pos, c).1.fBad
    decreases height
  {
    if height > 0 && c.nBitsUsed < |vBits| && vBits[c.nBitsUsed] {
      var c1 := c.(nBitsUsed := c.nBitsUsed + 1);
      BadStaysBad(hash, n, vBits, vHash, height - 1, 2 * pos, c1);
      BadStaysBad(hash, n, vBits, vHash, height - 1, 2 * pos + 1,
        Extract(hash, n, vBits, vHash, height - 1, 2 * pos, c1).1);
    }
  }

  /** Any bits and hashes that extract to the true hash of a node yield only leaves below that
      node, each at most once and in order. */
  lemma {:induction false} ExtractSound(hash: Hasher, vTxid: seq<Uint256>, height: nat, pos: nat,
                                        vBits: seq<bool>, vHash: seq<Uint256>, c: Cursor)
    returns (found: seq<Uint256>, at: seq<nat>)
    requires Injective(hash) && pos < Width(|vTxid|, height)
    requires var r := Extract(hash, |vTxid|, vBits, vHash, height, pos, c);
             r.0 == CalcHash(hash, vTxid, height, pos) && !r.1.fBad
    ensures Extract(hash, |vTxid|, vBits, vHash, height, pos, c).1.vMatch == c.vMatch + found
    ensures Hi(|vTxid|, height, pos) <= |vTxid| && LeavesAt(vTxid, found, at, Lo(height, pos), Hi(|vTxid|, height, pos))
    decreases height
  {
    hide Width, Lo, Hi, Injective;
    var n := |vTxid|;
    SubtreeRange(n, height, pos);
    if height == 0 || !vBits[c.nBitsUsed] {
      if height == 0 && vBits[c.nBitsUsed] { found, at := [vTxid[pos]], [pos]; } else { found, at := [], []; }
      assert c.vMatch + [] == c.vMatch;
    } else {
      SplitRange(n, height, pos);
      var c1 := c.(nBitsUsed := c.nBitsUsed + 1);
      var (left, c2) := Extract(hash, n, vBits, vHash, height - 1, 2 * pos, c1);
      ParentParts(hash, vTxid, height, pos, left,
                  if 2 * pos +
                    1 < Width(n, height - 1) then Extract(hash, n, vBits, vHash, height - 1, 2 * pos + 1, c2).0
                      else left);
      if c2.fBad { BadStaysBad(hash, n, vBits, vHash, height - 1, 2 * pos + 1, c2); }
      found, at := ExtractSound(hash, vTxid, height - 1, 2 * pos, vBits, vHash, c1);
      if 2 * pos + 1 < Width(n, height - 1) {
        var found2, at2 := ExtractSound(hash, vTxid, height - 1, 2 * pos + 1, vBits, vHash, c2);
        assert (c.vMatch + found) + found2 == c.vMatch + (found + found2);
        found, at := found + found2, at + at2;
      }
    }
  }

  lemma ParentParts(hash: Hasher, vTxid: seq<Uint256>, height: nat, pos: nat, left: Uint256, right: Uint256)
    requires Injective(hash) && height > 0 && pos < Width(|vTxid|, height)
    requires hash(left, right) == CalcHash(hash, vTxid, height, pos)
    ensures 2 * pos < Width(|vTxid|, height - 1) && left == CalcHash(hash, vTxid, height - 1, 2 * pos)
    ensures 2 * pos + 1 < Width(|vTxid|, height - 1) ==> right == CalcHash(hash, vTxid, height - 1, 2 * pos + 1)
  {
  }

  /** Soundness: with a collision-free hash and the true number of transactions, a proof that
      is not refused and extracts to the block's root yields only transactions of that block,
      whoever made it. */
  lemma OnlyTransactionsOfTheBlock(hash: Hasher, vTxid: seq<Uint256>, vBits: seq<bool>, vHash: seq<Uint256>)
    returns (at: seq<nat>)
    requires Injective(hash) && |vTxid| > 0 && CalcHash(hash, vTxid, Top(|vTxid|), 0) != 0
    requires ExtractAll(hash, |vTxid|, vBits, vHash, false).0 == CalcHash(hash, vTxid, Top(|vTxid|), 0)
    ensures LeavesAt(vTxid, ExtractAll(hash, |vTxid|, vBits, vHash, false).1, at, 0, |vTxid|)
  {
    hide Width, Lo, Hi, Injective, CalcHash, Extract;
    WholeRange(|vTxid|);
    var found;
    found, at := ExtractSound(hash, vTxid, Top(|vTxid|), 0, vBits, vHash, Cursor(0, 0, [], false));
    assert [] + found == found;
  }

  /** A block for which any proof that extracts to its root yields only its transactions. */
  ghost predicate Sound(hash: Hasher, vTxid: seq<Uint256>)
    requires |vTxid| > 0
  {
    forall vBits, vHash |
      ExtractAll(hash, |vTxid|, vBits, vHash, false).0 == CalcHash(hash, vTxid, Top(|vTxid|), 0) ::
      exists at :: LeavesAt(vTxid, ExtractAll(hash, |vTxid|, vBits, vHash, false).1, at, 0, |vTxid|)
  }

  /** No subtree uses more bits than a full one has nodes. */
  lemma {:induction false} BitsBound(hash: Hasher, n: nat, vBits: seq<bool>, vHash: seq<Uint256>, height: nat, pos: nat,
                                     c: Cursor)
    ensures Extract(hash, n, vBits, vHash, height, pos, c).1.nBitsUsed < c.nBitsUsed + 2 * Pow2(height)
    decreases height
  {
    if height > 0 && c.nBitsUsed < |vBits| && vBits[c.nBitsUsed] {
      var c1 := c.(nBitsUsed := c.nBitsUsed + 1);
      BitsBound(hash, n, vBits, vHash, height - 1, 2 * pos, c1);
      BitsBound(hash, n, vBits, vHash, height - 1, 2 * pos + 1,
        Extract(hash, n, vBits, vHash, height - 1, 2 * pos, c1).1);
    }
  }

  /** Once the hashes are used up nothing more is matched. */
  lemma {:induction false} NothingMatched(hash: Hasher, n: nat, vBits: seq<bool>, vHash: seq<Uint256>, height: nat,
                                          pos: nat, c: Cursor)
    requires c.nHashUsed >= |vHash|
    ensures var c' := Extract(hash, n, vBits, vHash, height, pos, c).1;
            c'.vMatch == c.vMatch && c'.nHashUsed == c.nHashUsed
    decreases height
  {
    if height > 0 && c.nBitsUsed < |vBits| && vBits[c.nBitsUsed] {
      var c1 := c.(nBitsUsed := c.nBitsUsed + 1);
      NothingMatched(hash, n, vBits, vHash, height - 1, 2 * pos, c1);
      NothingMatched(hash, n, vBits, vHash, height - 1, 2 * pos + 1,
        Extract(hash, n, vBits, vHash, height - 1, 2 * pos, c1).1);
    }
  }

  /** With all flags set the one hash there is ends up at the leftmost leaf. */
  lemma {:induction false} LeftmostMatched(hash: Hasher, n: nat, vBits: seq<bool>, x: Uint256, height: nat, pos: nat,
                                           c: Cursor)
    requires c.nHashUsed == 0 && c.nBitsUsed + height < |vBits| && forall i | 0 <= i < |vBits| :: vBits[i]
    ensures var c' := Extract(hash, n, vBits, [x], height, pos, c).1; c'.vMatch == c.vMatch + [x] && c'.nHashUsed == 1
    decreases height
  {
    if height > 0 {
      var c1 := c.(nBitsUsed := c.nBitsUsed + 1);
      LeftmostMatched(hash, n, vBits, x, height - 1, 2 * pos, c1);
      NothingMatched(hash, n, vBits, [x], height - 1, 2 * pos + 1,
        Extract(hash, n, vBits, [x], height - 1, 2 * pos, c1).1);
    }
  }

  /** A refused proof still hands back what it matched: any x at all, for any number of transactions,
      with the root reported as zero. */
  lemma RefusedButMatched(hash: Hasher, n: nat, x: Uint256) returns (vBits: seq<bool>)
    requires 0 < n <= 16_666
    ensures ExtractAll(hash, n, vBits, [x], false) == (0, [x])
  {
    hide Width, TopFrom;
    var top := Top(n);
    vBits := seq(2 * Pow2(top) + top + 16, _ => true);
    var c := Cursor(0, 0, [], false);
    BitsBound(hash, n, vBits, [x], top, 0, c);
    LeftmostMatched(hash, n, vBits, x, top, 0, c);
    assert [] + [x] == [x];
  }

  lemma Outsider(s: seq<Uint256>) returns (x: Uint256)
    ensures x !in s
  {
    x := 0;
    for i := 0 to |s|
      invariant forall k | 0 <= k < i :: s[k] < x
    {
      x := Max(x, s[i] + 1);
    }
  }

  lemma NoLeaf(vTxid: seq<Uint256>, x: Uint256)
    requires x !in vTxid
    ensures forall at :: !LeavesAt(vTxid, [x], at, 0, |vTxid|)
  {
    forall at ensures !LeavesAt(vTxid, [x], at, 0, |vTxid|) {
      if |at| == 1 && at[0] < |vTxid| { assert [x][0] != vTxid[at[0]]; }
    }
  }

  /** Soundness, exactly: it holds for a block whose root is not zero, and for one too large for any
      proof to be looked at, but for no other.  A refused proof is reported as root zero. */
  lemma SoundIff(hash: Hasher, vTxid: seq<Uint256>)
    requires Injective(hash) && |vTxid| > 0
    ensures Sound(hash, vTxid) <==> CalcHash(hash, vTxid, Top(|vTxid|), 0) != 0 || |vTxid| > 16_666
  {
    hide Width, CalcHash, Extract, Injective, TopFrom;
    var n, root := |vTxid|, CalcHash(hash, vTxid, Top(|vTxid|), 0);
    if root != 0 {
      forall vBits, vHash | ExtractAll(hash, n, vBits, vHash, false).0 == root
        ensures exists at :: LeavesAt(vTxid, ExtractAll(hash, n, vBits, vHash, false).1, at, 0, n)
      {
        var at := OnlyTransactionsOfTheBlock(hash, vTxid, vBits, vHash);
      }
    } else if n > MAX_BLOCK_SIZE / 60 {
      assert LeavesAt(vTxid, [], [], 0, n);
    } else {
      var x := Outsider(vTxid);
      var vBits := RefusedButMatched(hash, n, x);
      NoLeaf(vTxid, x);
    }
  }

  // ---------- the object ----------

  class CPartialMerkleTree {
    var nTransactions: nat
    var vBits: seq<bool>
    var vHash: seq<Uint256>
    var fBad: bool

    /** Builds the partial tree of a block's transactions; a block is never empty. */
    constructor (hash: Hasher, vTxid: seq<Uint256>, vMatch: seq<bool>)
      requires 0 < |vTxid| == |vMatch|
      ensures nTransactions == |vTxid| && !fBad && (vBits, vHash) == Built(hash, vTxid, vMatch, Top(|vTxid|), 0)
    {
      nTransactions, vBits, vHash, fBad := |vTxid|, [], [], false;
      new;
      var nHeight := TreeHeight(nTransactions);
      TraverseAndBuild(hash, nHeight, 0, vTxid, vMatch);
      ghost var built := Built(hash, vTxid, vMatch, nHeight, 0);
      assert [] + built.0 == built.0 && [] + built.1 == built.1;
    }

    /** Unserialising: the bits come back padded to whole bytes. */
    constructor Unserialize(nTransactions: nat, vHash: seq<Uint256>, vBytes: seq<bv8>)
      ensures this.nTransactions == nTransactions && this.vHash == vHash && !fBad
      ensures |vBits| == 8 * |vBytes| && forall p | 0 <= p < |vBits| :: vBits[p] == BitAt(vBytes, p)
    {
      this.nTransactions, this.vHash, fBad := nTransactions, vHash, false;
      var bits := Unpack(vBytes);
      vBits := bits;
    }

    /** The loop of `TraverseAndBuild` over the leaves of a subtree. */
    method FindFlag(vMatch: seq<bool>, lo: nat, hi: nat) returns (fParentOfMatch: bool)
      requires |vMatch| == nTransactions && lo < nTransactions && lo < hi
      ensures fParentOfMatch == AnyFlag(vMatch, lo, Min(hi, nTransactions))
    {
      fParentOfMatch := false;
      var p := lo;
      while p < hi && p < nTransactions
        invariant lo <= p <= Min(hi, nTransactions)
        invariant fParentOfMatch == AnyFlag(vMatch, lo, p)
      {
        fParentOfMatch := fParentOfMatch || vMatch[p];
        p := p + 1;
      }
    }

    /** `TraverseAndBuild` */
    method TraverseAndBuild(hash: Hasher, height: nat, pos: nat, vTxid: seq<Uint256>, vMatch: seq<bool>)
      requires pos < Width(|vTxid|, height) && |vMatch| == |vTxid| == nTransactions
      modifies this`vBits, this`vHash
      ensures var (bits, hashes) := Built(hash, vTxid, vMatch, height, pos);
              vBits == old(vBits) + bits && vHash == old(vHash) + hashes
      decreases height
    {
      hide Width, CalcHash, Lo, Hi, AnyFlag, Built, CalcTreeWidth;
      SubtreeRange(nTransactions, height, pos);
      HiIsNextLo(nTransactions, height, pos);
      BuiltCases(hash, vTxid, vMatch, height, pos);
      ghost var bits, hashes := vBits, vHash;
      var fParentOfMatch := FindFlag(vMatch, Lo(height, pos), Lo(height, pos + 1));
      vBits := vBits + [fParentOfMatch];
      if height == 0 || !fParentOfMatch {
        vHash := vHash + [CalcHash(hash, vTxid, height, pos)];
      } else {
        ghost var left := Built(hash, vTxid, vMatch, height - 1, 2 * pos);
        TraverseAndBuild(hash, height - 1, 2 * pos, vTxid, vMatch);
        assert vBits == bits + ([true] + left.0) && vHash == hashes + left.1;
        WidthIsCalcTreeWidth(nTransactions, height - 1);
        if 2 * pos + 1 < CalcTreeWidth(nTransactions, height - 1) {
          ghost var right := Built(hash, vTxid, vMatch, height - 1, 2 * pos + 1);
          TraverseAndBuild(hash, height - 1, 2 * pos + 1, vTxid, vMatch);
          Joined(bits, [true] + left.0, right.0);
          Joined(hashes, left.1, right.1);
        }
      }
    }

    /** `TraverseAndExtract`, with the counters and the match list it passes by reference. */
    method TraverseAndExtract(hash: Hasher, height: nat, pos: nat, nBitsUsed: nat, nHashUsed: nat, vMatch: seq<Uint256>)
      returns (h: Uint256, nBitsUsed': nat, nHashUsed': nat, vMatch': seq<Uint256>)
      modifies this`fBad
      ensures (h, Cursor(nBitsUsed', nHashUsed', vMatch', fBad)) ==
              Extract(hash, nTransactions, vBits, vHash, height, pos, Cursor(nBitsUsed, nHashUsed, vMatch, old(fBad)))
      decreases height
    {
      hide Width;
      nBitsUsed', nHashUsed', vMatch' := nBitsUsed, nHashUsed, vMatch;
      if nBitsUsed' >= |vBits| {
        fBad := true;
        return 0, nBitsUsed', nHashUsed', vMatch';
      }
      var fParentOfMatch := vBits[nBitsUsed'];
      nBitsUsed' := nBitsUsed' + 1;
      if height == 0 || !fParentOfMatch {
        if nHashUsed' >= |vHash| {
          fBad := true;
          return 0, nBitsUsed', nHashUsed', vMatch';
        }
        h := vHash[nHashUsed'];
        nHashUsed' := nHashUsed' + 1;
        if height == 0 && fParentOfMatch { vMatch' := vMatch' + [h]; }
      } else {
        var left, right;
        left, nBitsUsed', nHashUsed', vMatch' :=
          TraverseAndExtract(hash, height - 1, 2 * pos, nBitsUsed', nHashUsed', vMatch');
        WidthIsCalcTreeWidth(nTransactions, height - 1);
        if 2 * pos + 1 < CalcTreeWidth(nTransactions, height - 1) {
          right, nBitsUsed', nHashUsed', vMatch' :=
            TraverseAndExtract(hash, height - 1, 2 * pos + 1, nBitsUsed', nHashUsed', vMatch');
        } else {
          right := left;
        }
        h := hash(left, right);
      }
    }

    method ExtractMatches(hash: Hasher) returns (root: Uint256, vMatch: seq<Uint256>)
      modifies this`fBad
      ensures (root, vMatch) == ExtractAll(hash, nTransactions, vBits, vHash, old(fBad))
    {
      vMatch := [];
      if nTransactions == 0 { return 0, vMatch; }
      if nTransactions > MAX_BLOCK_SIZE / 60 { return 0, vMatch; }
      if |vHash| > nTransactions { return 0, vMatch; }
      if |vBits| < |vHash| { return 0, vMatch; }
      var nHeight := TreeHeight(nTransactions);
      var nBitsUsed, nHashUsed;
      root, nBitsUsed, nHashUsed, vMatch := TraverseAndExtract(hash, nHeight, 0, 0, 0, vMatch);
      if fBad { return 0, vMatch; }
      if (nBitsUsed + 7) / 8 != (|vBits| + 7) / 8 { return 0, vMatch; }
      if nHashUsed != |vHash| { return 0, vMatch; }
    }
  }

  /** Build, serialise, unserialise, extract: the whole round trip through bytes. */
  method ThroughBytes(hash: Hasher, vTxid: seq<Uint256>, vMatch: seq<bool>) returns (root: Uint256, found: seq<Uint256>)
    requires 0 < |vTxid| == |vMatch| <= 16_666
    ensures root == CalcHash(hash, vTxid, Top(|vTxid|), 0)
    ensures found == Flagged(vTxid, vMatch, 0, |vTxid|)
  {
    var tree := new CPartialMerkleTree(hash, vTxid, vMatch);
    var vBytes := Pack(tree.vBits);
    var copy := new CPartialMerkleTree.Unserialize(tree.nTransactions, tree.vHash, vBytes);
    ghost var padding := copy.vBits[|tree.vBits|..];
    assert copy.vBits == tree.vBits + padding;
    RoundTrip(hash, vTxid, vMatch, padding);
    root, found := copy.ExtractMatches(hash);
  }
}
