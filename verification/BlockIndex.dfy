/** `CBlockIndex`: the nodes of the block tree.  What a node is given when it is created
    never changes; only `pnext`, the failure flags and the undo data do. */
module BlockIndex {
  import opened Wrappers
  import opened Coins
  import opened Blocks

  class CBlockIndex {
    const hash: nat
    const pprev: CBlockIndex?
    const nHeight: nat
    const nChainWork: nat
    const nTime: uint32
    const nBits: uint32
    const block: Block

    var pnext: CBlockIndex?
    var failedValid: bool
    var failedChild: bool
    /** The undo file record; None while BLOCK_HAVE_UNDO is not set. */
    var undo: Option<seq<seq<InUndo>>>

    /** `AddToBlockIndex`: height and work continue those of the parent. */
    constructor (hash: nat, pprev: CBlockIndex?, block: Block, nBlockWork: nat, nTime: uint32, nBits: uint32)
      requires nBlockWork > 0 && (pprev != null ==> pprev.Linked())
      ensures Linked() && this.pprev == pprev && this.hash == hash && this.block == block && this.nTime == nTime &&
              this.nBits == nBits
      ensures nHeight == (if pprev == null then 0 else pprev.nHeight + 1)
      ensures nChainWork == nBlockWork + if pprev == null then 0 else pprev.nChainWork
      ensures pnext == null && !failedValid && !failedChild && undo == None
    {
      this.hash, this.pprev, this.block, this.nTime, this.nBits := hash, pprev, block, nTime, nBits;
      nHeight := if pprev == null then 0 else pprev.nHeight + 1;
      nChainWork := (if pprev == null then 0 else pprev.nChainWork) + nBlockWork;
      pnext, failedValid, failedChild, undo := null, false, false, None;
    }

    /** Heights and work count up from a parentless block at height 0. */
    ghost predicate Linked()
      decreases nHeight
    {
      && (pprev == null <==> nHeight == 0)
      && (pprev != null ==> pprev.nHeight + 1 == nHeight && pprev.nChainWork < nChainWork && pprev.Linked())
    }

    predicate Failed()
      reads this`failedValid, this`failedChild
    {
      failedValid || failedChild
    }
  }

  /** The ancestor of a block at a given height. */
  ghost function Anc(b: CBlockIndex, h: nat): (a: CBlockIndex)
    requires b.Linked() && h <= b.nHeight
    ensures a.Linked() && a.nHeight == h
    ensures h < b.nHeight ==> a.nChainWork < b.nChainWork
    decreases b.nHeight
  {
    if h == b.nHeight then b else Anc(b.pprev, h)
  }

  /** `a` is on the chain ending in `b`. */
  ghost predicate OnChain(a: CBlockIndex, b: CBlockIndex)
    requires b.Linked()
  {
    a.nHeight <= b.nHeight && Anc(b, a.nHeight) == a
  }

  lemma {:induction false} AncAnc(b: CBlockIndex, h: nat, g: nat)
    requires b.Linked() && g <= h <= b.nHeight
    ensures Anc(Anc(b, h), g) == Anc(b, g)
    decreases b.nHeight
  {
    if h < b.nHeight { AncAnc(b.pprev, h, g); }
  }

  lemma AncPrev(b: CBlockIndex, h: nat)
    requires b.Linked() && 0 < h <= b.nHeight
    ensures Anc(b, h).pprev == Anc(b, h - 1)
  {
    AncAnc(b, h, h - 1);
  }

  /** Chains that meet at one height agree at every lower height. */
  lemma ChainsMerge(a: CBlockIndex, b: CBlockIndex, h: nat, g: nat)
    requires a.Linked() && b.Linked() && g <= h <= a.nHeight && h <= b.nHeight
    requires Anc(a, h) == Anc(b, h)
    ensures Anc(a, g) == Anc(b, g)
  {
    AncAnc(a, h, g);
    AncAnc(b, h, g);
  }
}
