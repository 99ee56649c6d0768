/** `CTxMemPool`: the transactions waiting for a block, and for every outpoint they spend the one
    that spends it. */
module MemPool {
  import opened Wrappers
  import opened Coins
  import opened Blocks

  type Pool = map<Txid, Transaction>

  /** `CInPoint`: which pool transaction spends an outpoint, and with which input. */
  datatype InPoint = InPoint(ptx: Txid, n: nat)

  /** `mapNextTx` is exactly the set of inputs of `mapTx`, each with its only spender. */
  ghost predicate Linked(mapTx: Pool, mapNextTx: map<OutPoint, InPoint>) {
    && (forall h | h in mapTx :: mapTx[h].txid == h)
    && (forall h, i | h in mapTx && 0 <= i < |mapTx[h].vin| ::
       mapTx[h].vin[i] in mapNextTx && mapNextTx[mapTx[h].vin[i]] == InPoint(h, i))
    && forall o | o in mapNextTx ::
      mapNextTx[o].ptx in mapTx && mapNextTx[o].n < |mapTx[mapNextTx[o].ptx].vin| &&
        mapTx[mapNextTx[o].ptx].vin[mapNextTx[o].n] == o
  }

  /** A txid is a hash over the inputs, so a transaction comes after the ones it spends from: `rank`
      is any measure of that order. */
  ghost predicate Follows(rank: Txid -> nat, tx: Transaction) {
    |tx.vout| <= 0x1_0000_0000 && forall o | o in tx.vin :: rank(o.hash) < rank(tx.txid)
  }

  ghost predicate Ranked(rank: Txid -> nat, m: Pool) {
    forall h | h in m :: m[h].txid == h && Follows(rank, m[h])
  }

  /** Equal txids mean equal transactions. */
  ghost predicate Matches(m: Pool, tx: Transaction) { tx.txid in m ==> m[tx.txid] == tx }

  ghost function Outs(tx: Transaction): seq<OutPoint>
    requires |tx.vout| <= 0x1_0000_0000
  {
    seq(|tx.vout|, i requires 0 <= i < |tx.vout| => OutPoint(tx.txid, i))
  }

  /** The pool transactions that spend an output of `tx`. */
  ghost predicate Spends(child: Transaction, tx: Transaction) {
    exists i | 0 <= i < |child.vin| :: child.vin[i].hash == tx.txid && child.vin[i].n < |tx.vout|
  }

  /** A chain of spends through the pool, starting from `tx`. */
  ghost predicate Path(m: Pool, tx: Transaction, p: seq<Txid>)
    decreases |p|
  {
    && p != [] && p[0] in m && Spends(m[p[0]], tx)
    && (|p| > 1 ==> Path(m, m[p[0]], p[1..]))
  }

  /** `h` is a descendant of `tx` in the pool. */
  ghost predicate Descends(m: Pool, tx: Transaction, h: Txid) {
    exists p :: Path(m, tx, p) && p[|p| - 1] == h
  }

  lemma ChildDescends(m: Pool, tx: Transaction, h: Txid)
    requires h in m && Spends(m[h], tx)
    ensures Descends(m, tx, h)
  {
    assert Path(m, tx, [h]);
  }

  lemma {:induction false} PathInPool(m: Pool, tx: Transaction, p: seq<Txid>)
    requires Path(m, tx, p)
    ensures p[|p| - 1] in m
    decreases |p|
  {
    if |p| > 1 { PathInPool(m, m[p[0]], p[1..]); }
  }

  lemma {:induction false} PathGrows(m: Pool, tx: Transaction, p: seq<Txid>, h: Txid)
    requires Path(m, tx, p) && p[|p| - 1] in m && h in m && Spends(m[h], m[p[|p| - 1]])
    ensures Path(m, tx, p + [h])
    decreases |p|
  {
    if |p| > 1 {
      PathGrows(m, m[p[0]], p[1..], h);
      assert (p + [h])[1..] == p[1..] + [h];
    } else {
      assert (p + [h])[1..] == [h];
      assert Path(m, m[p[0]], [h]);
    }
  }

  lemma DescendsOn(m: Pool, tx: Transaction, k: Txid, h: Txid)
    requires Descends(m, tx, k) && k in m && h in m && Spends(m[h], m[k])
    ensures Descends(m, tx, h)
  {
    var p :| Path(m, tx, p) && p[|p| - 1] == k;
    PathGrows(m, tx, p, h);
    assert (p + [h])[|p + [h]| - 1] == h;
  }

  /** A child and what descends from it descend from the parent. */
  lemma DescendsVia(m: Pool, tx: Transaction, c: Txid, h: Txid)
    requires c in m && Spends(m[c], tx) && Descends(m, m[c], h)
    ensures Descends(m, tx, h)
  {
    var p :| Path(m, m[c], p) && p[|p| - 1] == h;
    assert ([c] + p)[1..] == p;
    assert Path(m, tx, [c] + p);
  }

  /** Fewer transactions, fewer descendants. */
  lemma {:induction false} PathMonotone(m: Pool, m0: Pool, tx: Transaction, p: seq<Txid>)
    requires Path(m, tx, p) && Part(m, m0)
    ensures Path(m0, tx, p)
    decreases |p|
  {
    if |p| > 1 { PathMonotone(m, m0, m[p[0]], p[1..]); }
  }

  ghost predicate Part(m: Pool, m0: Pool) { forall h | h in m :: h in m0 && m[h] == m0[h] }

  /** With a transaction, its children are missing as well. */
  ghost predicate ChildrenGo(m: Pool, m0: Pool) {
    forall k, h | k in m0 && k !in m && h in m0 && Spends(m0[h], m0[k]) :: h !in m
  }

  lemma {:induction false} PathSurvives(m: Pool, m0: Pool, tx: Transaction, p: seq<Txid>)
    requires Path(m0, tx, p) && Part(m, m0) && ChildrenGo(m, m0)
    ensures (p[0] !in m ==> p[|p| - 1] !in m) && (p[|p| - 1] in m ==> Path(m, tx, p))
    decreases |p|
  {
    if |p| > 1 {
      PathSurvives(m, m0, m0[p[0]], p[1..]);
      assert p[1] in m0 && Spends(m0[p[1]], m0[p[0]]);
    }
  }

  /** Removing a family that is closed under children does not cut any other descent. */
  lemma DescendsSame(m: Pool, m0: Pool, tx: Transaction, h: Txid)
    requires Part(m, m0) && ChildrenGo(m, m0)
    ensures Descends(m, tx, h) <==> Descends(m0, tx, h) && h in m
  {
    if Descends(m, tx, h) {
      var p :| Path(m, tx, p) && p[|p| - 1] == h;
      PathMonotone(m, m0, tx, p);
      PathInPool(m, tx, p);
    }
    if Descends(m0, tx, h) && h in m {
      var p :| Path(m0, tx, p) && p[|p| - 1] == h;
      PathSurvives(m, m0, tx, p);
    }
  }

  /** Every step of a descent goes to a later rank. */
  lemma {:induction false} PathRises(rank: Txid -> nat, m: Pool, tx: Transaction, p: seq<Txid>)
    requires Ranked(rank, m) && Path(m, tx, p)
    ensures rank(p[|p| - 1]) > rank(tx.txid)
    decreases |p|
  {
    var c := m[p[0]];
    var i :| 0 <= i < |c.vin| && c.vin[i].hash == tx.txid;
    assert c.vin[i] in c.vin;
    if |p| > 1 { PathRises(rank, m, c, p[1..]); }
  }

  lemma NotOwnDescendant(rank: Txid -> nat, m: Pool, tx: Transaction)
    requires Ranked(rank, m)
    ensures !Descends(m, tx, tx.txid)
  {
    forall p | Path(m, tx, p) ensures p[|p| - 1] != tx.txid { PathRises(rank, m, tx, p); }
  }

  // ---------- taking out families ----------

  /** What goes when `tx` goes. */
  ghost predicate Family(m: Pool, tx: Transaction, h: Txid) { h == tx.txid || Descends(m, tx, h) }

  /** What goes when the spenders of the outpoints in `os` go, except the one called `keep`. */
  ghost predicate Goes(m: Pool, next: map<OutPoint, InPoint>, os: seq<OutPoint>, keep: Option<Txid>, h: Txid) {
    exists o | o in os && o in next && next[o].ptx in m :: Some(next[o].ptx) != keep && Family(m, m[next[o].ptx], h)
  }

  /** `m` is what is left of `m0` when everything that `gone` names has gone. */
  ghost predicate Rest(m: Pool, m0: Pool, next: map<OutPoint, InPoint>, os: seq<OutPoint>, keep: Option<Txid>) {
    Part(m, m0) && forall h | h in m0 :: h in m <==> !Goes(m0, next, os, keep, h)
  }

  /** What has gone took its children along. */
  lemma RestChildren(m: Pool, m0: Pool, next: map<OutPoint, InPoint>, os: seq<OutPoint>, keep: Option<Txid>)
    requires Linked(m0, next) && Rest(m, m0, next, os, keep)
    ensures ChildrenGo(m, m0)
  {
    forall k, h | k in m0 && k !in m && h in m0 && Spends(m0[h], m0[k]) ensures h !in m {
      var o :| o in os && o in next && next[o].ptx in m0 && Some(next[o].ptx) != keep && Family(m0, m0[next[o].ptx], k);
      var s := m0[next[o].ptx];
      if k == s.txid { ChildDescends(m0, s, h); } else { DescendsOn(m0, s, k, h); }
      assert Family(m0, s, h);
    }
  }

  /** One more outpoint: nothing to do, or one more family to take out of what is left. */
  lemma RestStep(m: Pool, m': Pool, m0: Pool, next: map<OutPoint, InPoint>, os: seq<OutPoint>, keep: Option<Txid>,
                 o: OutPoint)
    requires Linked(m0, next) && Rest(m, m0, next, os, keep)
    requires if o in next && Some(next[o].ptx) != keep && next[o].ptx in m then Cut(m, m', m0[next[o].ptx]) else m' == m
    ensures Rest(m', m0, next, os + [o], keep)
  {
    hide Family, Goes, ChildrenGo, Linked;
    RestChildren(m, m0, next, os, keep);
    forall h | h in m0 ensures h in m' <==> !Goes(m0, next, os + [o], keep, h) {
      GoesStep(m0, next, os, keep, o, h);
      if o in next && Some(next[o].ptx) != keep {
        HasSpender(m0, next, o);
        var c := m0[next[o].ptx];
        if c.txid in m {
          if h in m { FamilySame(m, m0, c, h); }
        } else {
          if Family(m0, c, h) { FamilyGone(m, m0, c, h); }
        }
      }
    }
  }

  lemma GoesStep(m0: Pool, next: map<OutPoint, InPoint>, os: seq<OutPoint>, keep: Option<Txid>, o: OutPoint, h: Txid)
    requires Linked(m0, next)
    ensures Goes(m0, next, os + [o], keep, h) <==>
      Goes(m0, next, os, keep, h) || (o in next && Some(next[o].ptx) != keep && Family(m0, m0[next[o].ptx], h))
  {
  }

  lemma HasSpender(m: Pool, next: map<OutPoint, InPoint>, o: OutPoint)
    requires Linked(m, next) && o in next
    ensures next[o].ptx in m && m[next[o].ptx].txid == next[o].ptx
  {
  }

  lemma FamilySame(m: Pool, m0: Pool, c: Transaction, h: Txid)
    requires Part(m, m0) && ChildrenGo(m, m0) && h in m
    ensures Family(m, c, h) <==> Family(m0, c, h)
  {
    DescendsSame(m, m0, c, h);
  }

  /** The family of something that is gone is gone. */
  lemma FamilyGone(m: Pool, m0: Pool, c: Transaction, h: Txid)
    requires Part(m, m0) && ChildrenGo(m, m0) && c.txid in m0 && m0[c.txid] == c && c.txid !in m && Family(m0, c, h)
    ensures h !in m
  {
    if h != c.txid {
      var p :| Path(m0, c, p) && p[|p| - 1] == h;
      PathSurvives(m, m0, c, p);
    }
  }

  /** `m'` is `m` without `tx` and its descendants. */
  ghost predicate Cut(m: Pool, m': Pool, tx: Transaction) {
    Part(m', m) && forall h | h in m :: h in m' <==> !Family(m, tx, h)
  }

  /** Two pools of which one is part of the other agree about the spenders they share. */
  lemma NextSame(m: Pool, next: map<OutPoint, InPoint>, m0: Pool, next0: map<OutPoint, InPoint>, o: OutPoint)
    requires Linked(m, next) && Linked(m0, next0) && Part(m, m0)
    ensures o in next <==> o in next0 && next0[o].ptx in m
    ensures o in next ==> next[o] == next0[o]
  {
  }

  /** The children of `tx` are the spenders of its outputs. */
  lemma OutsFamily(m: Pool, next: map<OutPoint, InPoint>, tx: Transaction, h: Txid)
    requires Linked(m, next) && |tx.vout| <= 0x1_0000_0000
    ensures Goes(m, next, Outs(tx), None, h) <==> Descends(m, tx, h)
  {
    hide Linked, Descends, Family, Spends;
    if Goes(m, next, Outs(tx), None, h) {
      var o :| o in Outs(tx) && o in next && next[o].ptx in m && Family(m, m[next[o].ptx], h);
      SpenderIsChild(m, next, tx, o);
      InFamilyOf(m, tx, next[o].ptx, h);
    }
    if Descends(m, tx, h) {
      var c := FirstStep(m, tx, h);
      var o := SpentBy(m, next, tx, c);
      assert Some(next[o].ptx) != None;
    }
  }

  lemma SpenderIsChild(m: Pool, next: map<OutPoint, InPoint>, tx: Transaction, o: OutPoint)
    requires Linked(m, next) && |tx.vout| <= 0x1_0000_0000 && o in Outs(tx) && o in next
    ensures next[o].ptx in m && m[next[o].ptx].txid == next[o].ptx && Spends(m[next[o].ptx], tx)
  {
  }

  lemma InFamilyOf(m: Pool, tx: Transaction, c: Txid, h: Txid)
    requires c in m && m[c].txid == c && Spends(m[c], tx) && Family(m, m[c], h)
    ensures Descends(m, tx, h)
  {
    hide Path, Spends;
    if h == c { ChildDescends(m, tx, h); } else { DescendsVia(m, tx, c, h); }
  }

  /** A descent starts with a child. */
  lemma FirstStep(m: Pool, tx: Transaction, h: Txid) returns (c: Txid)
    requires Descends(m, tx, h)
    ensures c in m && Spends(m[c], tx) && (h == c || Descends(m, m[c], h))
  {
    var p :| Path(m, tx, p) && p[|p| - 1] == h;
    c := p[0];
    if |p| > 1 {
      assert Path(m, m[c], p[1..]) && p[1..][|p[1..]| - 1] == h;
    }
  }

  lemma SpentBy(m: Pool, next: map<OutPoint, InPoint>, tx: Transaction, c: Txid) returns (o: OutPoint)
    requires Linked(m, next) && |tx.vout| <= 0x1_0000_0000 && c in m && Spends(m[c], tx)
    ensures o in Outs(tx) && o in next && next[o].ptx == c && m[c].txid == c
    ensures forall h | h == c || Descends(m, m[c], h) :: Family(m, m[c], h)
  {
    var i :| 0 <= i < |m[c].vin| && m[c].vin[i].hash == tx.txid && m[c].vin[i].n < |tx.vout|;
    o := m[c].vin[i];
    assert Outs(tx)[o.n] == o && next[o].ptx == c;
  }

  ghost function Later(rank: Txid -> nat, m: Pool, r: nat): set<Txid> { set h | h in m && rank(h) > r }

  /** A child leaves fewer later transactions than its parent, also when some have gone. */
  lemma LaterShrinks(rank: Txid -> nat, m: Pool, m0: Pool, r: nat, c: Txid)
    requires Part(m, m0) && c in m && rank(c) > r
    ensures |Later(rank, m, rank(c))| < |Later(rank, m0, r)|
  {
    assert Later(rank, m, rank(c)) <= Later(rank, m0, r) - {c};
    Smaller(Later(rank, m, rank(c)), Later(rank, m0, r) - {c});
  }

  lemma LaterPart(rank: Txid -> nat, m: Pool, m0: Pool, r: nat)
    requires Part(m, m0)
    ensures |Later(rank, m, r)| <= |Later(rank, m0, r)|
  {
    Smaller(Later(rank, m, r), Later(rank, m0, r));
  }

  lemma WholePart(m: Pool)
    ensures Part(m, m)
  {
  }

  lemma {:induction false} Smaller(a: set<Txid>, b: set<Txid>)
    requires a <= b
    ensures |a| <= |b|
  {
    assert b == a + (b - a);
  }

  /** One transaction goes, with its inputs. */
  lemma Unlink(m: Pool, next: map<OutPoint, InPoint>, next': map<OutPoint, InPoint>, tx: Transaction)
    requires Linked(m, next) && tx.txid in m && m[tx.txid] == tx
    requires forall o :: o in next' <==> o in next && o !in tx.vin
    requires forall o | o in next' :: next'[o] == next[o]
    ensures Linked(m - {tx.txid}, next')
  {
  }

  lemma Link(m: Pool, next: map<OutPoint, InPoint>, next': map<OutPoint, InPoint>, tx: Transaction)
    requires Linked(m, next) && tx.txid !in m && Distinct(tx.vin) && forall o | o in tx.vin :: o !in next
    requires forall o :: o in next' <==> o in next || o in tx.vin
    requires forall o | o in next :: next'[o] == next[o]
    requires forall i | 0 <= i < |tx.vin| :: next'[tx.vin[i]] == InPoint(tx.txid, i)
    ensures Linked(m[tx.txid := tx], next')
  {
  }

  class CTxMemPool {
    var mapTx: Pool
    var mapNextTx: map<OutPoint, InPoint>
    var nTransactionsUpdated: nat

    ghost predicate Valid(rank: Txid -> nat)
      reads this
    {
      Linked(mapTx, mapNextTx) && Ranked(rank, mapTx)
    }

    constructor ()
      ensures mapTx == map[] && forall rank: Txid -> nat :: Valid(rank)
    {
      mapTx, mapNextTx, nTransactionsUpdated := map[], map[], 0;
    }

    /** `addUnchecked`: what its caller has checked is that the transaction is new and that the pool
        spends none of its inputs yet. */
    method AddUnchecked(tx: Transaction, ghost rank: Txid -> nat)
      requires Valid(rank) && Follows(rank, tx) && tx.txid !in mapTx && Distinct(tx.vin)
      requires forall o | o in tx.vin :: o !in mapNextTx
      modifies this
      ensures Valid(rank) && mapTx == old(mapTx)[tx.txid := tx] && nTransactionsUpdated == old(nTransactionsUpdated) + 1
    {
      mapTx := mapTx[tx.txid := tx];
      for i := 0 to |tx.vin|
        invariant mapTx == old(mapTx)[tx.txid := tx] && nTransactionsUpdated == old(nTransactionsUpdated)
        invariant forall o :: o in mapNextTx <==> o in old(mapNextTx) || o in tx.vin[..i]
        invariant forall o | o in old(mapNextTx) :: mapNextTx[o] == old(mapNextTx)[o]
        invariant forall k | 0 <= k < i :: mapNextTx[tx.vin[k]] == InPoint(tx.txid, k)
      {
        assert tx.vin[..i + 1] == tx.vin[..i] + [tx.vin[i]] && tx.vin[i] in tx.vin;
        mapNextTx := mapNextTx[tx.vin[i] := InPoint(tx.txid, i)];
      }
      assert tx.vin[..|tx.vin|] == tx.vin;
      Link(old(mapTx), old(mapNextTx), mapNextTx, tx);
      nTransactionsUpdated := nTransactionsUpdated + 1;
    }

    /** `accept`: a conflicting transaction is turned away at once, so the replacement code behind
        that test is never reached.  `standard` stands for the tests of shape, fees and scripts. */
    method Accept(tx: Transaction, standard: bool, ghost rank: Txid -> nat) returns (accepted: bool)
      requires Valid(rank) && Follows(rank, tx)
      modifies this
      ensures Valid(rank)
      ensures accepted <==> (ValidTransaction(tx) && !tx.IsCoinBase() && standard && tx.txid !in old(mapTx)
                             && forall h, o | h in old(mapTx) && o in tx.vin :: o !in old(mapTx)[h].vin)
      ensures mapTx == if accepted then old(mapTx)[tx.txid := tx] else old(mapTx)
    {
      hide Value;
      var valid := CheckTransaction(tx);
      if !valid { return false; }
      if tx.IsCoinBase() { return false; }
      if !standard { return false; }
      if tx.txid in mapTx { return false; }
      for i := 0 to |tx.vin|
        invariant forall k | 0 <= k < i :: tx.vin[k] !in mapNextTx
      {
        var outpoint := tx.vin[i];
        if outpoint in mapNextTx {
          var h := mapNextTx[outpoint].ptx;
          assert mapTx[h].vin[mapNextTx[outpoint].n] == outpoint && h in old(mapTx) && outpoint in tx.vin &&
                 outpoint in old(mapTx)[h].vin;
          return false;
        }
      }
      AddUnchecked(tx, rank);
      return true;
    }

    /** `remove`: takes out `tx` and, when asked to, everything in the pool that descends from it,
        and nothing else.  The recursion ends because children come later than their parents. */
    method Remove(tx: Transaction, fRecursive: bool, ghost rank: Txid -> nat)
      requires Valid(rank) && Matches(mapTx, tx) && Follows(rank, tx)
      modifies this
      ensures Valid(rank)
      ensures if fRecursive then Cut(old(mapTx), mapTx, tx) else mapTx == old(mapTx) - {tx.txid}
      ensures nTransactionsUpdated + |mapTx| == old(nTransactionsUpdated) + |old(mapTx)|
      decreases |Later(rank, mapTx, rank(tx.txid))|, 1
    {
      hide Linked, Goes, Later, Ranked, Rest, Cut, Part, Path, Outs;
      ghost var m0, next0 := mapTx, mapNextTx;
      var hash := tx.txid;
      if fRecursive {
        NoOuts(m0, next0);
        OutsEnds(tx);
        for i := 0 to |tx.vout|
          invariant Linked(mapTx, mapNextTx) && Ranked(rank, mapTx)
          invariant |Outs(tx)| == |tx.vout| && Rest(mapTx, m0, next0, Outs(tx)[..i], None)
          invariant nTransactionsUpdated + |mapTx| == old(nTransactionsUpdated) + |old(mapTx)|
        {
          var o := OutPoint(hash, i);
          ghost var m := mapTx;
          RestPart(m, m0, next0, Outs(tx)[..i]);
          NextSame(m, mapNextTx, m0, next0, o);
          LaterPart(rank, m, m0, rank(hash));
          RemoveSpender(o, rank);
          OutsNext(tx, i);
          RestStep(m, mapTx, m0, next0, Outs(tx)[..i], None, o);
        }
        OutsGone(mapTx, m0, next0, tx, rank);
        if hash !in mapTx { return; }
      } else if hash !in mapTx {
        assert mapTx == mapTx - {hash};
        return;
      }
      RemoveOne(tx, rank);
    }

    /** One turn of the loop of `remove`: the spender of one output goes, with its descendants. */
    method RemoveSpender(o: OutPoint, ghost rank: Txid -> nat)
      requires Valid(rank)
      modifies this
      ensures Valid(rank)
      ensures if o in old(mapNextTx) then old(mapNextTx)[o].ptx in old(mapTx) &&
              Cut(old(mapTx), mapTx, old(mapTx)[old(mapNextTx)[o].ptx])
              else mapTx == old(mapTx)
      ensures nTransactionsUpdated + |mapTx| == old(nTransactionsUpdated) + |old(mapTx)|
      decreases |Later(rank, mapTx, rank(o.hash))|, 0
    {
      hide Linked, Ranked, Later, Cut;
      if o in mapNextTx {
        HasSpender(mapTx, mapNextTx, o);
        ChildIsLater(rank, mapTx, mapNextTx, o);
        WholePart(mapTx);
        LaterShrinks(rank, mapTx, mapTx, rank(o.hash), mapNextTx[o].ptx);
        Remove(mapTx[mapNextTx[o].ptx], true, rank);
      }
    }

    /** The last part of `remove`: `tx` itself. */
    method RemoveOne(tx: Transaction, ghost rank: Txid -> nat)
      requires Valid(rank) && tx.txid in mapTx && mapTx[tx.txid] == tx
      modifies this
      ensures Valid(rank) && mapTx == old(mapTx) - {tx.txid} &&
              nTransactionsUpdated + |mapTx| == old(nTransactionsUpdated) + |old(mapTx)|
    {
      hide Linked, Ranked;
      for i := 0 to |tx.vin|
        invariant forall o :: o in mapNextTx <==> o in old(mapNextTx) && o !in tx.vin[..i]
        invariant forall o | o in mapNextTx :: mapNextTx[o] == old(mapNextTx)[o]
        modifies this`mapNextTx
      {
        assert tx.vin[..i + 1] == tx.vin[..i] + [tx.vin[i]];
        mapNextTx := mapNextTx - {tx.vin[i]};
      }
      assert tx.vin[..|tx.vin|] == tx.vin;
      Unlink(mapTx, old(mapNextTx), mapNextTx, tx);
      RankedPart(rank, mapTx, tx.txid);
      assert mapTx.Keys - {tx.txid} == (mapTx - {tx.txid}).Keys;
      mapTx := mapTx - {tx.txid};
      nTransactionsUpdated := nTransactionsUpdated + 1;
    }

    /** `removeConflicts`: takes out the pool transactions other than `tx` that spend one of its
        inputs, with their descendants, and nothing else. */
    method RemoveConflicts(tx: Transaction, ghost rank: Txid -> nat)
      requires Valid(rank) && Matches(mapTx, tx)
      modifies this
      ensures Valid(rank)
      ensures forall h, o | h in mapTx && h != tx.txid && o in tx.vin :: o !in mapTx[h].vin
      ensures Part(mapTx, old(mapTx))
      ensures forall h | h in old(mapTx) :: h in mapTx <==>
        !exists c | c in old(mapTx) && c != tx.txid && Conflicts(old(mapTx)[c], tx) ::
          Family(old(mapTx), old(mapTx)[c], h)
    {
      hide Linked, Descends, Goes, Ranked, Conflicts;
      ghost var m0, next0 := mapTx, mapNextTx;
      NoOuts(m0, next0);
      for i := 0 to |tx.vin|
        invariant Linked(mapTx, mapNextTx) && Ranked(rank, mapTx)
        invariant Rest(mapTx, m0, next0, tx.vin[..i], Some(tx.txid))
      {
        var o := tx.vin[i];
        NextSame(mapTx, mapNextTx, m0, next0, o);
        ghost var m := mapTx;
        if o in mapNextTx {
          HasSpender(mapTx, mapNextTx, o);
          var txConflict := mapTx[mapNextTx[o].ptx];
          if txConflict != tx {
            PoolFollows(rank, mapTx, txConflict.txid);
            Remove(txConflict, true, rank);
          }
        }
        assert tx.vin[..i + 1] == tx.vin[..i] + [o];
        RestStep(m, mapTx, m0, next0, tx.vin[..i], Some(tx.txid), o);
      }
      assert tx.vin[..|tx.vin|] == tx.vin;
      forall h | h in m0 ensures h in mapTx <==>
        !exists c | c in m0 && c != tx.txid && Conflicts(m0[c], tx) :: Family(m0, m0[c], h)
      {
        ConflictsGo(m0, next0, tx, h);
      }
      NoConflicts(mapTx, m0, next0, tx);
    }
  }

  ghost predicate Conflicts(a: Transaction, b: Transaction) { exists o :: o in a.vin && o in b.vin }

  lemma OutsEnds(tx: Transaction)
    requires |tx.vout| <= 0x1_0000_0000
    ensures |Outs(tx)| == |tx.vout| && Outs(tx)[..0] == [] && Outs(tx)[..|tx.vout|] == Outs(tx)
  {
  }

  lemma OutsNext(tx: Transaction, i: nat)
    requires i < |tx.vout| <= 0x1_0000_0000
    ensures |Outs(tx)| == |tx.vout| && Outs(tx)[..i + 1] == Outs(tx)[..i] + [OutPoint(tx.txid, i)]
  {
  }

  lemma NoOuts(m: Pool, next: map<OutPoint, InPoint>)
    ensures Rest(m, m, next, [], None) && forall h :: Rest(m, m, next, [], Some(h))
  {
  }

  lemma RestPart(m: Pool, m0: Pool, next: map<OutPoint, InPoint>, os: seq<OutPoint>)
    requires Rest(m, m0, next, os, None)
    ensures Part(m, m0)
  {
  }

  lemma RankedPart(rank: Txid -> nat, m: Pool, h: Txid)
    requires Ranked(rank, m)
    ensures Ranked(rank, m - {h})
  {
  }

  lemma PoolFollows(rank: Txid -> nat, m: Pool, h: Txid)
    requires Ranked(rank, m) && h in m
    ensures m[h].txid == h && Follows(rank, m[h])
  {
  }

  lemma ChildIsLater(rank: Txid -> nat, m: Pool, next: map<OutPoint, InPoint>, o: OutPoint)
    requires Linked(m, next) && Ranked(rank, m) && o in next
    ensures next[o].ptx in m && rank(next[o].ptx) > rank(o.hash) && Follows(rank, m[next[o].ptx])
  {
  }

  /** When the families of all outputs have gone, the descendants have gone, and `tx` has not. */
  lemma OutsGone(m: Pool, m0: Pool, next0: map<OutPoint, InPoint>, tx: Transaction, rank: Txid -> nat)
    requires Linked(m0, next0) && Ranked(rank, m0) && |tx.vout| <= 0x1_0000_0000 && Rest(m, m0, next0, Outs(tx), None)
    ensures Cut(m0, m - {tx.txid}, tx) && (tx.txid !in m ==> Cut(m0, m, tx)) && (tx.txid in m <==> tx.txid in m0)
    ensures tx.txid in m ==> m[tx.txid] == m0[tx.txid]
  {
    forall h | h in m0 ensures h in m <==> !Descends(m0, tx, h) { OutsFamily(m0, next0, tx, h); }
    NotOwnDescendant(rank, m0, tx);
  }

  lemma ConflictsGo(m: Pool, next: map<OutPoint, InPoint>, tx: Transaction, h: Txid)
    requires Linked(m, next)
    ensures Goes(m, next, tx.vin, Some(tx.txid), h) <==>
      exists c | c in m && c != tx.txid && Conflicts(m[c], tx) :: Family(m, m[c], h)
  {
  }

  lemma NoConflicts(m: Pool, m0: Pool, next0: map<OutPoint, InPoint>, tx: Transaction)
    requires Linked(m0, next0) && Rest(m, m0, next0, tx.vin, Some(tx.txid))
    ensures forall h, o | h in m && h != tx.txid && o in tx.vin :: o !in m[h].vin
  {
  }

  // ---------- taking out, output by output ----------

  /** An output that is no longer there: of `tx`, or of a transaction that is in `m` and not in `m'`. */
  predicate OutputGone(m: Pool, m': Pool, tx: Transaction, o: OutPoint) {
    (o.hash == tx.txid && o.n < |tx.vout|) || (o.hash in m && o.hash !in m' && o.n < |m[o.hash].vout|)
  }

  /** Nothing is left that spends an output that is gone. */
  predicate NothingDangles(m: Pool, m': Pool, tx: Transaction) {
    forall h, i | h in m' && 0 <= i < |m'[h].vin| :: !OutputGone(m, m', tx, m'[h].vin[i])
  }

  /** Nothing goes but `tx` and what spends an output that is gone. */
  predicate NothingElseGoes(m: Pool, m': Pool, tx: Transaction) {
    forall h | h in m && h !in m' && h != tx.txid ::
      exists i :: 0 <= i < |m[h].vin| && OutputGone(m, m', tx, m[h].vin[i])
  }

  /** The last step of a descent. */
  lemma {:induction false} LastStep(m: Pool, tx: Transaction, p: seq<Txid>) returns (k: Txid)
    requires Path(m, tx, p)
    ensures var h := p[|p| - 1];
            h in m && (Spends(m[h], tx) || (k in m && Descends(m, tx, k) && Spends(m[h], m[k])))
    decreases |p|
  {
    k := p[0];
    if |p| > 1 {
      k := LastStep(m, m[p[0]], p[1..]);
      var h := p[|p| - 1];
      assert Path(m, tx, [p[0]]);
      if Spends(m[h], m[p[0]]) { k := p[0]; } else { DescendsVia(m, tx, p[0], k); }
    }
  }

  lemma SpendsGone(m: Pool, m': Pool, tx: Transaction, child: Transaction, k: Txid)
    requires k in m && k !in m' && m[k].txid == k && Spends(child, m[k])
    ensures exists i :: 0 <= i < |child.vin| && OutputGone(m, m', tx, child.vin[i])
  {
  }

  lemma {:induction false} PathGoes(m: Pool, m': Pool, tx: Transaction, t: Transaction, p: seq<Txid>)
    requires Path(m, t, p) && Part(m', m) && NothingDangles(m, m', tx) && forall h | h in m :: m[h].txid == h
    requires t == tx || (t.txid in m && t.txid !in m' && m[t.txid] == t)
    ensures p[|p| - 1] !in m'
    decreases |p|
  {
    var c := m[p[0]];
    var i :| 0 <= i < |c.vin| && c.vin[i].hash == t.txid && c.vin[i].n < |t.vout|;
    assert OutputGone(m, m', tx, c.vin[i]);
    if |p| > 1 { PathGoes(m, m', tx, c, p[1..]); }
  }

  lemma {:induction false} GoneDescends(rank: Txid -> nat, m: Pool, m': Pool, tx: Transaction, h: Txid)
    requires Ranked(rank, m) && Matches(m, tx) && NothingElseGoes(m, m', tx) && h in m && h !in m'
    ensures Family(m, tx, h)
    decreases rank(h)
  {
    hide Path, Descends;
    if h != tx.txid {
      var i :| 0 <= i < |m[h].vin| && OutputGone(m, m', tx, m[h].vin[i]);
      var o := m[h].vin[i];
      assert o in m[h].vin;
      if o.hash == tx.txid && o.n < |tx.vout| {
        assert Spends(m[h], tx);
        ChildDescends(m, tx, h);
      } else {
        GoneDescends(rank, m, m', tx, o.hash);
        assert Spends(m[h], m[o.hash]);
        if o.hash == tx.txid { ChildDescends(m, tx, h); } else { DescendsOn(m, tx, o.hash, h); }
      }
    }
  }

  /** What a recursive `remove` leaves, without speaking of descent: `tx` is gone, nothing that is left
      spends an output that is gone, and nothing else is gone. */
  lemma CutIff(rank: Txid -> nat, m: Pool, m': Pool, tx: Transaction)
    requires Ranked(rank, m) && Matches(m, tx) && Part(m', m)
    ensures Cut(m, m', tx) <==> tx.txid !in m' && NothingDangles(m, m', tx) && NothingElseGoes(m, m', tx)
  {
    if Cut(m, m', tx) { CutOutputs(rank, m, m', tx); }
    if tx.txid !in m' && NothingDangles(m, m', tx) && NothingElseGoes(m, m', tx) {
      forall h | h in m ensures h in m' <==> !Family(m, tx, h) {
        if h !in m' { GoneDescends(rank, m, m', tx, h); }
        if Descends(m, tx, h) {
          var p :| Path(m, tx, p) && p[|p| - 1] == h;
          PathGoes(m, m', tx, tx, p);
        }
      }
    }
  }

  lemma CutOutputs(rank: Txid -> nat, m: Pool, m': Pool, tx: Transaction)
    requires Ranked(rank, m) && Matches(m, tx) && Cut(m, m', tx)
    ensures tx.txid !in m' && NothingDangles(m, m', tx) && NothingElseGoes(m, m', tx)
  {
    forall h, i | h in m' && 0 <= i < |m'[h].vin| ensures !OutputGone(m, m', tx, m'[h].vin[i]) {
      var o := m'[h].vin[i];
      if o.hash == tx.txid && o.n < |tx.vout| {
        assert Spends(m[h], tx);
        ChildDescends(m, tx, h);
      } else if OutputGone(m, m', tx, o) {
        assert Spends(m[h], m[o.hash]);
        if o.hash == tx.txid { ChildDescends(m, tx, h); } else { DescendsOn(m, tx, o.hash, h); }
      }
    }
    forall h | h in m && h !in m' && h != tx.txid
      ensures exists i :: 0 <= i < |m[h].vin| && OutputGone(m, m', tx, m[h].vin[i])
    {
      var p :| Path(m, tx, p) && p[|p| - 1] == h;
      var k := LastStep(m, tx, p);
      if Spends(m[h], tx) {
        var i :| 0 <= i < |m[h].vin| && m[h].vin[i].hash == tx.txid && m[h].vin[i].n < |tx.vout|;
        assert OutputGone(m, m', tx, m[h].vin[i]);
      } else {
        SpendsGone(m, m', tx, m[h], k);
      }
    }
  }
}
