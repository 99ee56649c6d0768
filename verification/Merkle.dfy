/** Merkle trees: the flat array of `BuildMerkleTree`, branches taken from it and folded
    back, and the recursive hash of a node they all agree on. */
module Merkle {
  import opened Wrappers

  type Uint256 = nat
  type Hasher = (Uint256, Uint256) -> Uint256

  /** `CalcTreeWidth`: the number of nodes at a height over n leaves. */
  function CalcTreeWidth(n: nat, height: nat): nat {
    (n + Pow2(height) - 1) / Pow2(height)
  }

  /** The same number, level by level: half as many as below, rounded up. */
  function Width(n: nat, height: nat): nat {
    if height == 0 then n else (Width(n, height - 1) + 1) / 2
  }

  lemma {:induction false} WidthIsCalcTreeWidth(n: nat, height: nat)
    ensures CalcTreeWidth(n, height) == Width(n, height)
  {
    if height > 0 {
      WidthIsCalcTreeWidth(n, height - 1);
      CeilHalf(n, Pow2(height - 1));
    }
  }

  lemma CeilHalf(n: nat, p: nat)
    requires p > 0
    ensures (n + 2 * p - 1) / (2 * p) == ((n + p - 1) / p + 1) / 2
  {
    var q := (n + p - 1) / p;
    var k := (q + 1) / 2;
    QuotientBounds(n + p - 1, p);
    Products(p, q, k);
    QuotientIs(n + 2 * p - 1, 2 * p, k);
  }

  lemma Products(p: nat, q: nat, k: nat)
    ensures 2 * k == q ==> k * (2 * p) == q * p
    ensures 2 * k == q + 1 ==> k * (2 * p) == q * p + p
  {
  }

  /** `CalcHash`: the hash of the node at (height, pos); a node without a right child counts
      its left child twice. */
  function CalcHash(hash: Hasher, vTxid: seq<Uint256>, height: nat, pos: nat): Uint256
    requires pos < Width(|vTxid|, height)
  {
    if height == 0 then vTxid[pos] else
      var left := CalcHash(hash, vTxid, height - 1, 2 * pos);
      var right := if 2 * pos + 1 < Width(|vTxid|, height - 1) then CalcHash(hash, vTxid, height - 1, 2 * pos + 1)
        else left;
      hash(left, right)
  }

  ghost function Level(hash: Hasher, vTxid: seq<Uint256>, height: nat): seq<Uint256> {
    seq(Width(|vTxid|, height), i requires 0 <= i < Width(|vTxid|, height) => CalcHash(hash, vTxid, height, i))
  }

  /** The levels 0 to `height`, one after the other. */
  ghost function Levels(hash: Hasher, vTxid: seq<Uint256>, height: nat): seq<Uint256> {
    if height == 0 then Level(hash, vTxid, 0) else Levels(hash, vTxid, height - 1) + Level(hash, vTxid, height)
  }

  /** Where a level starts in the flat array. */
  ghost function Offset(n: nat, height: nat): nat {
    if height == 0 then 0 else Offset(n, height - 1) + Width(n, height - 1)
  }

  lemma {:induction false} LevelInLevels(hash: Hasher, vTxid: seq<Uint256>, height: nat, top: nat)
    requires height <= top
    ensures |Levels(hash, vTxid, top)| >= Offset(|vTxid|, height) + Width(|vTxid|, height)
    ensures forall i | 0 <= i < Width(|vTxid|, height) ::
              Levels(hash, vTxid, top)[Offset(|vTxid|, height) + i] == CalcHash(hash, vTxid, height, i)
    ensures height == top ==> |Levels(hash, vTxid, top)| == Offset(|vTxid|, top) + Width(|vTxid|, top)
    decreases top
  {
    hide CalcHash, Width, Levels, Level, Offset;
    LevelsEnd(hash, vTxid, top);
    if top > 0 {
      LevelInLevels(hash, vTxid, top - 1, top - 1);
      if height < top { LevelInLevels(hash, vTxid, height, top - 1); }
    }
  }

  /** The last level of the array. */
  lemma LevelsEnd(hash: Hasher, vTxid: seq<Uint256>, top: nat)
    ensures |Level(hash, vTxid, top)| == Width(|vTxid|, top)
    ensures forall i | 0 <= i < Width(|vTxid|, top) :: Level(hash, vTxid, top)[i] == CalcHash(hash, vTxid, top, i)
    ensures top == 0 ==> Levels(hash, vTxid, top) == Level(hash, vTxid, top) && Offset(|vTxid|, top) == 0
    ensures top > 0 ==> Levels(hash, vTxid, top) == Levels(hash, vTxid, top - 1) + Level(hash, vTxid, top)
    ensures top > 0 ==> Offset(|vTxid|, top) == Offset(|vTxid|, top - 1) + Width(|vTxid|, top - 1)
  {
  }

  lemma NextNode(hash: Hasher, vTxid: seq<Uint256>, height: nat, k: nat)
    requires k < Width(|vTxid|, height + 1) && 2 * k < Width(|vTxid|, height)
    ensures Level(hash, vTxid, height + 1)[k] ==
            hash(CalcHash(hash, vTxid, height, 2 * k),
              CalcHash(hash, vTxid, height, Min(2 * k + 1, Width(|vTxid|, height) - 1)))
  {
  }

  lemma LevelsStep(hash: Hasher, vTxid: seq<Uint256>, height: nat)
    ensures Levels(hash, vTxid, height + 1) == Levels(hash, vTxid, height) + Level(hash, vTxid, height + 1)
    ensures |Level(hash, vTxid, height + 1)| == Width(|vTxid|, height + 1)
    ensures Width(|vTxid|, height) <= 2 * Width(|vTxid|, height + 1) <= Width(|vTxid|, height) + 1
  {
  }

  /** The height of the first level, from `height` on, that is one node wide. */
  function TopFrom(n: nat, height: nat): (top: nat)
    requires Width(n, height) >= 1
    ensures top >= height && Width(n, top) == 1
    decreases Width(n, height)
  {
    if Width(n, height) == 1 then height else
      TopFrom(n, height + 1)
  }

  /** The height of the root over n leaves. */
  function Top(n: nat): (top: nat)
    requires n > 0
    ensures Width(n, top) == 1
  {
    TopFrom(n, 0)
  }

  /** Finding the height of the root, as the partial tree does it. */
  method TreeHeight(n: nat) returns (nHeight: nat)
    requires n > 0
    ensures nHeight == Top(n)
  {
    nHeight := 0;
    WidthIsCalcTreeWidth(n, 0);
    while CalcTreeWidth(n, nHeight) > 1
      invariant CalcTreeWidth(n, nHeight) == Width(n, nHeight) >= 1 && TopFrom(n, nHeight) == Top(n)
      decreases Width(n, nHeight)
    {
      nHeight := nHeight + 1;
      WidthIsCalcTreeWidth(n, nHeight);
    }
  }

  lemma BottomFacts(n: nat)
    requires n > 0
    ensures Width(n, 0) == n && Offset(n, 0) == 0 && TopFrom(n, 0) == Top(n)
  {
  }

  lemma LevelFacts(n: nat, height: nat)
    requires Width(n, height) >= 1
    ensures Width(n, height + 1) == (Width(n, height) + 1) / 2
    ensures Offset(n, height + 1) == Offset(n, height) + Width(n, height)
    ensures TopFrom(n, height) == if Width(n, height) == 1 then height else TopFrom(n, height + 1)
  {
  }

  /** What `GetMerkleBranch` collects from (height, pos) upwards: the neighbour at each level,
      or the node itself where it is the last of an odd level. */
  ghost function Branch(hash: Hasher, vTxid: seq<Uint256>, height: nat, pos: nat, top: nat): (b: seq<Uint256>)
    requires height <= top && Width(|vTxid|, height) > 0
    ensures |b| == top - height
    decreases top - height
  {
    if height == top then [] else
      [CalcHash(hash, vTxid, height, Min(Xor1(pos), Width(|vTxid|, height) - 1))] +
        Branch(hash, vTxid, height + 1, pos / 2, top)
  }

  /** `nIndex ^ 1` */
  function Xor1(n: nat): nat { if n % 2 == 0 then n + 1 else n - 1 }

  /** What `CheckMerkleBranch` computes; a shift of a negative index rounds down. */
  function Fold(hash: Hasher, leaf: Uint256, vMerkleBranch: seq<Uint256>, nIndex: int): Uint256
    decreases |vMerkleBranch|
  {
    if vMerkleBranch == [] then leaf else
      Fold(hash, if nIndex % 2 == 1 then hash(vMerkleBranch[0], leaf) else hash(leaf, vMerkleBranch[0]),
        vMerkleBranch[1..], nIndex / 2)
  }

  /** A node and its neighbour hash to their parent, in the order of their positions. */
  lemma ParentHash(hash: Hasher, vTxid: seq<Uint256>, height: nat, pos: nat)
    requires pos < Width(|vTxid|, height) && Width(|vTxid|, height) > 1
    ensures pos / 2 < Width(|vTxid|, height + 1)
    ensures var other := CalcHash(hash, vTxid, height, Min(Xor1(pos), Width(|vTxid|, height) - 1));
            var self := CalcHash(hash, vTxid, height, pos);
            CalcHash(hash, vTxid, height + 1, pos / 2) == if pos % 2 == 1 then hash(other, self) else hash(self, other)
  {
  }

  /** Folding a branch from any node leads to the root. */
  lemma {:induction false} FoldBranch(hash: Hasher, vTxid: seq<Uint256>, height: nat, pos: nat, top: nat)
    requires height <= top && pos < Width(|vTxid|, height) && top == TopFrom(|vTxid|, height)
    ensures Fold(hash, CalcHash(hash, vTxid, height, pos), Branch(hash, vTxid, height, pos, top), pos) ==
            CalcHash(hash, vTxid, top, 0)
    decreases top - height
  {
    hide CalcHash, Branch, Xor1, Min, Width, TopFrom;
    LevelFacts(|vTxid|, height);
    if height < top {
      ParentHash(hash, vTxid, height, pos);
      BranchStep(hash, vTxid, height, pos, top);
      FoldBranch(hash, vTxid, height + 1, pos / 2, top);
      var b := Branch(hash, vTxid, height, pos, top);
      assert b[1..] == Branch(hash, vTxid, height + 1, pos / 2, top);
    }
  }

  lemma NoBranchAbove(hash: Hasher, vTxid: seq<Uint256>, pos: nat, top: nat)
    requires Width(|vTxid|, top) > 0
    ensures Branch(hash, vTxid, top, pos, top) == []
  {
  }

  lemma BranchStep(hash: Hasher, vTxid: seq<Uint256>, height: nat, pos: nat, top: nat)
    requires height < top && Width(|vTxid|, height) > 0
    ensures 0 < Width(|vTxid|, height + 1) && 0 <= Min(Xor1(pos), Width(|vTxid|, height) - 1) < Width(|vTxid|, height)
    ensures Branch(hash, vTxid, height, pos, top) ==
            [CalcHash(hash, vTxid, height, Min(Xor1(pos), Width(|vTxid|, height) - 1))] +
              Branch(hash, vTxid, height + 1, pos / 2, top)
  {
  }

  class MerkleBlock {
    /** The ids of the block's transactions. */
    const vtx: seq<Uint256>
    var vMerkleTree: seq<Uint256>

    constructor (vtx: seq<Uint256>)
      ensures this.vtx == vtx && vMerkleTree == []
    {
      this.vtx, vMerkleTree := vtx, [];
    }

    /** The inner loop of `BuildMerkleTree`: one more level, read from the one that ends the
        array so far. */
    method AppendLevel(hash: Hasher, j: nat, nSize: nat, ghost height: nat)
      requires vMerkleTree == Levels(hash, vtx, height)
      requires j == Offset(|vtx|, height) && nSize == Width(|vtx|, height) > 1
      modifies this
      ensures vMerkleTree == Levels(hash, vtx, height + 1)
    {
      hide Width, Level, Levels, Offset, CalcHash;
      LevelInLevels(hash, vtx, height, height);
      LevelsStep(hash, vtx, height);
      ghost var next := Level(hash, vtx, height + 1);
      var i, tree := 0, vMerkleTree;
      ghost var k := 0;
      while i < nSize
        invariant i == 2 * k && 0 <= k <= |next|
        invariant tree == vMerkleTree + next[..k] && vMerkleTree == old(vMerkleTree)
      {
        var i2 := Min(i + 1, nSize - 1);
        NextNode(hash, vtx, height, k);
        tree := tree + [hash(tree[j + i], tree[j + i2])];
        i, k := i + 2, k + 1;
      }
      assert next[..|next|] == next;
      vMerkleTree := tree;
    }

    /** `BuildMerkleTree`: the flat array holds every level, and its last entry is the root
        that the recursive definition gives. */
    method BuildMerkleTree(hash: Hasher) returns (root: Uint256)
      modifies this
      ensures |vtx| == 0 ==> root == 0 && vMerkleTree == []
      ensures |vtx| > 0 ==> vMerkleTree == Levels(hash, vtx, Top(|vtx|)) && root == CalcHash(hash, vtx, Top(|vtx|), 0)
    {
      vMerkleTree := vtx;
      assert vMerkleTree == Levels(hash, vtx, 0);
      hide Width, CalcHash, Levels;
      var j, nSize := 0, |vtx|;
      ghost var height := 0;
      while nSize > 1
        invariant nSize == Width(|vtx|, height) && j == Offset(|vtx|, height) >= 0
        invariant if |vtx| > 0 then nSize > 0 && Top(|vtx|) == TopFrom(|vtx|, height) else height == 0
        invariant vMerkleTree == Levels(hash, vtx, height)
      {
        AppendLevel(hash, j, nSize, height);
        j := j + nSize;
        nSize := (nSize + 1) / 2;
        height := height + 1;
      }
      LevelInLevels(hash, vtx, height, height);
      root := if vMerkleTree == [] then 0 else vMerkleTree[|vMerkleTree| - 1];
    }

    /** The array, if there is one, is the one `BuildMerkleTree` makes. */
    ghost predicate TreeOk(hash: Hasher)
      reads this
    {
      vMerkleTree == [] || (|vtx| > 0 && vMerkleTree == Levels(hash, vtx, Top(|vtx|)))
    }

    /** `GetMerkleBranch`.  An index behind the last transaction gets a branch too, of last nodes. */
    method GetMerkleBranch(hash: Hasher, nIndex: nat) returns (vMerkleBranch: seq<Uint256>)
      requires TreeOk(hash)
      modifies this
      ensures TreeOk(hash)
      ensures vMerkleBranch == if vtx == [] then [] else Branch(hash, vtx, 0, nIndex, Top(|vtx|))
    {
      hide Width, CalcHash, Levels, Branch, Xor1, Min, Offset, TopFrom;
      if vMerkleTree == [] { var _ := BuildMerkleTree(hash); }
      if vtx == [] { return []; }
      ghost var top := Top(|vtx|);
      assert vMerkleTree == Levels(hash, vtx, top);
      vMerkleBranch := [];
      var j: nat, nSize: nat, n: nat := 0, |vtx|, nIndex;
      ghost var height := 0;
      BottomFacts(|vtx|);
      while nSize > 1
        invariant nSize == Width(|vtx|, height) > 0 && top == TopFrom(|vtx|, height)
        invariant j == Offset(|vtx|, height) && vMerkleTree == Levels(hash, vtx, top)
        invariant Branch(hash, vtx, 0, nIndex, top) == vMerkleBranch + Branch(hash, vtx, height, n, top)
        decreases top - height
      {
        LevelFacts(|vtx|, height);
        BranchStep(hash, vtx, height, n, top);
        var i := Min(Xor1(n), nSize - 1);
        LevelInLevels(hash, vtx, height, top);
        vMerkleBranch := vMerkleBranch + [vMerkleTree[j + i]];
        n := n / 2;
        j := j + nSize;
        nSize := (nSize + 1) / 2;
        height := height + 1;
      }
      LevelFacts(|vtx|, height);
      NoBranchAbove(hash, vtx, n, top);
      assert vMerkleBranch + [] == vMerkleBranch;
    }
  }

  /** `CheckMerkleBranch`; index -1 marks a transaction that is in no block. */
  method CheckMerkleBranch(hash: Hasher, leaf: Uint256, vMerkleBranch: seq<Uint256>, nIndex: int) returns (h: Uint256)
    ensures h == if nIndex == -1 then 0 else Fold(hash, leaf, vMerkleBranch, nIndex)
  {
    if nIndex == -1 { return 0; }
    h := leaf;
    var n := nIndex;
    for i := 0 to |vMerkleBranch|
      invariant Fold(hash, leaf, vMerkleBranch, nIndex) == Fold(hash, h, vMerkleBranch[i..], n)
    {
      var otherside := vMerkleBranch[i];
      assert vMerkleBranch[i..][1..] == vMerkleBranch[i + 1..];
      h := if n % 2 == 1 then hash(otherside, h) else hash(h, otherside);
      n := n / 2;
    }
  }

  /** Every transaction of a block proves its membership: its branch folds to the root. */
  method BranchProves(hash: Hasher, block: MerkleBlock, nIndex: nat) returns (root: Uint256, folded: Uint256)
    requires nIndex < |block.vtx|
    modifies block
    ensures root == folded
  {
    root := block.BuildMerkleTree(hash);
    var branch := block.GetMerkleBranch(hash, nIndex);
    folded := CheckMerkleBranch(hash, block.vtx[nIndex], branch, nIndex);
    assert Width(|block.vtx|, 0) == |block.vtx|;
    FoldBranch(hash, block.vtx, 0, nIndex, Top(|block.vtx|));
  }

  /** Small trees: a pair of leaves is hashed in order, and a node without a neighbour with itself. */
  lemma SmallTrees(hash: Hasher, a: Uint256, b: Uint256, c: Uint256)
    ensures Top(1) == 0 && CalcHash(hash, [a], 0, 0) == a
    ensures Top(2) == 1 && CalcHash(hash, [a, b], 1, 0) == hash(a, b)
    ensures Top(3) == 2 && Width(3, 2) == 1 && CalcHash(hash, [a, b, c], 2, 0) == hash(hash(a, b), hash(c, c))
  {
    assert Width(2, 1) == 1 && Width(3, 1) == 2;
    assert CalcHash(hash, [a, b, c], 1, 0) == hash(a, b) && CalcHash(hash, [a, b, c], 1, 1) == hash(c, c);
  }
}
