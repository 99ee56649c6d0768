/** The coin database and the write-back caches stacked on it.  Any stack behaves like one
    plain map per layer; only a flush moves anything from one layer to the next. */
module CoinsView {
  import opened Wrappers
  import opened Coins
  import opened Ledger
  import opened BlockIndex

  /** What a layer shows to the layer above it. */
  datatype Layer = Layer(coins: CoinMap, best: CBlockIndex?)

  /** What the database holds after a batch: pruned records are erased, not written, and a
      record that is written reads back in its stored form. */
  function Written(m: CoinMap, batch: CoinMap): CoinMap {
    map id | id in m.Keys + batch.Keys && (id in batch ==> !batch[id].IsPruned()) ::
      if id in batch then batch[id].StoredForm() else m[id]
  }

  /** No record of the batch has an integer that storing it changes. */
  predicate Lossless(batch: CoinMap) {
    forall id | id in batch && !batch[id].IsPruned() :: batch[id].nVersion >= 0 && batch[id].nHeight >= 0
  }

  /** The database still shows the same unspent outputs.  It has them bit for bit exactly when
      no record that was written has a negative version or height. */
  lemma WrittenShows(m: CoinMap, batch: CoinMap)
    ensures Shows(Written(m, batch), m + batch)
    ensures Same(Written(m, batch), m + batch) <==> Lossless(batch)
  {
    var w, n := Written(m, batch), m + batch;
    forall id: Txid ensures Shown(Live(w, id), Live(n, id)) { WrittenAt(m, batch, id); }
    if Lossless(batch) {
      forall id: Txid ensures Live(w, id) == Live(n, id) { WrittenAt(m, batch, id); }
    } else {
      var id :| id in batch && !batch[id].IsPruned() && !(batch[id].nVersion >= 0 && batch[id].nHeight >= 0);
      WrittenAt(m, batch, id);
    }
  }

  lemma WrittenAt(m: CoinMap, batch: CoinMap, id: Txid)
    ensures Live(Written(m, batch), id) ==
            match Live(m + batch, id) case None => None case Some(c) => Some(if id in batch then c.StoredForm() else c)
  {
    if id in batch { assert batch[id].StoredForm().vout == batch[id].vout; }
  }

  lemma NothingWritten(m: CoinMap)
    ensures Written(m, map[]) == m
  {
  }

  lemma WrittenStep(m: CoinMap, batch: CoinMap, left: set<Txid>, id: Txid)
    requires id in batch && id in left
    ensures Written(m, batch - (left - {id})) ==
            if batch[id].IsPruned() then Written(m, batch - left) - {id}
              else Written(m, batch - left)[id := batch[id].StoredForm()]
  {
    var done := batch - left;
    assert batch - (left - {id}) == done[id := batch[id]];
    if batch[id].IsPruned() {
      assert Written(m, done[id := batch[id]]) == Written(m, done) - {id};
    } else {
      assert Written(m, done[id := batch[id]]) == Written(m, done)[id := batch[id].StoredForm()];
    }
  }

  class CoinsViewDB {
    var coins: CoinMap
    var best: CBlockIndex?

    constructor ()
      ensures coins == map[] && best == null
    {
      coins, best := map[], null;
    }

    method GetCoins(txid: Txid) returns (r: Option<Coins>)
      ensures r == if txid in coins then Some(coins[txid]) else None
    {
      r := if txid in coins then Some(coins[txid]) else None;
    }

    /** `BatchWrite`: collects writes and erases, then applies them together or not at all. */
    method BatchWrite(mapCoins: CoinMap, pindex: CBlockIndex?, fWritten: bool) returns (ok: bool)
      modifies this
      ensures ok <==> fWritten
      ensures ok ==> coins == Written(old(coins), mapCoins) && best == if pindex == null then old(best) else pindex
      ensures !ok ==> coins == old(coins) && best == old(best)
    {
      hide Written;
      NothingWritten(coins);
      var batch: CoinMap, left := coins, mapCoins.Keys;
      assert mapCoins - left == map[];
      while left != {}
        invariant left <= mapCoins.Keys && batch == Written(coins, mapCoins - left)
        modifies {}
      {
        var id :| id in left;
        WrittenStep(coins, mapCoins, left, id);
        batch := if mapCoins[id].IsPruned() then batch - {id} else batch[id := mapCoins[id].StoredForm()];
        left := left - {id};
      }
      assert mapCoins - left == mapCoins;
      ok := fWritten;
      if ok {
        coins := batch;
        if pindex != null { best := pindex; }
      }
    }
  }

  lemma MergeStep(m: CoinMap, batch: CoinMap, left: set<Txid>, id: Txid)
    requires id in batch && id in left
    ensures m + (batch - (left - {id})) == (m + (batch - left))[id := batch[id]]
  {
  }

  lemma MergeAll(a: CoinMap, b: CoinMap, c: CoinMap)
    ensures a + (b + c) == (a + b) + c
  {
  }

  class CoinsViewCache {
    var cacheCoins: CoinMap
    var pindexTip: CBlockIndex?
    /** The layer below: another cache, or the database when there is none. */
    const base: CoinsViewCache?
    const db: CoinsViewDB
    ghost const depth: nat
    ghost const Repr: set<object>

    ghost predicate Valid()
      decreases depth
    {
      && this in Repr && db in Repr
      && (forall o | o in Repr :: o is CoinsViewCache || o is CoinsViewDB)
      && (base == null ==> Repr == {this, db})
      && (base != null ==>
            && base.depth < depth && base.db == db && base.Valid()
            && this !in base.Repr && Repr == base.Repr + {this})
    }

    /** What the layer directly below shows. */
    ghost function Under(): Layer
      requires Valid()
      reads Repr
      decreases depth, 0
    {
      if base == null then Layer(db.coins, db.best) else base.Top()
    }

    /** What this cache shows. */
    ghost function Top(): Layer
      requires Valid()
      reads Repr
      decreases depth, 1
    {
      Layer(Under().coins + cacheCoins, if pindexTip == null then Under().best else pindexTip)
    }

    /** What every layer below shows, the database first. */
    ghost function Below(): (s: seq<Layer>)
      requires Valid()
      reads Repr
      ensures |s| >= 1 && s[|s| - 1] == Under()
      ensures base != null ==> |s| >= 2
      decreases depth
    {
      if base == null then [Under()] else base.Below() + [base.Top()]
    }

    /** The layers below the one directly below. */
    ghost function Deeper(): seq<Layer>
      requires Valid()
      reads Repr
    {
      if base == null then [] else base.Below()
    }

    /** All layers: what a reader can observe of the whole stack. */
    ghost function Stack(): seq<Layer>
      requires Valid()
      reads Repr
    {
      Below() + [Top()]
    }

    /** The layers below are those of the cache this one sits on, and nothing else. */
    lemma BelowIsBase()
      requires Valid() && base != null
      ensures Below() == base.Stack() && Under() == base.Top()
    {
    }

    constructor OverDatabase(db: CoinsViewDB)
      ensures Valid() && base == null && this.db == db && fresh(Repr - {db}) && pindexTip == null
      ensures Top() == Layer(db.coins, db.best)
    {
      cacheCoins, pindexTip, base, this.db, depth := map[], null, null, db, 0;
      Repr := {this, db};
      new;
      assert db.coins + map[] == db.coins;
    }

    constructor (baseIn: CoinsViewCache)
      requires baseIn.Valid()
      ensures Valid() && base == baseIn && db == baseIn.db && fresh(Repr - baseIn.Repr) && pindexTip == null
      ensures Below() == baseIn.Stack() && Top() == Under() == baseIn.Top()
    {
      cacheCoins, pindexTip, base, db, depth := map[], null, baseIn, baseIn.db, baseIn.depth + 1;
      Repr := baseIn.Repr + {this};
      new;
      assert baseIn.Top().coins + map[] == baseIn.Top().coins;
    }

    /** A read: fills caches on the way down and shows exactly the same everywhere. */
    method GetCoins(txid: Txid) returns (r: Option<Coins>)
      requires Valid()
      modifies Repr
      ensures Below() == old(Below()) && Top() == old(Top())
      ensures r == if txid in Top().coins then Some(Top().coins[txid]) else None
      decreases depth
    {
      if txid in cacheCoins { return Some(cacheCoins[txid]); }
      if base == null {
        r := db.GetCoins(txid);
      } else {
        r := base.GetCoins(txid);
      }
      if r.Some? { Remember(txid, r.value); }
    }

    method Remember(txid: Txid, coins: Coins)
      requires Valid() && txid !in cacheCoins
      requires txid in Top().coins && Top().coins[txid] == coins
      modifies this`cacheCoins
      ensures Below() == old(Below()) && Top() == old(Top())
    {
      ghost var under := Under();
      assert under.coins + cacheCoins[txid := coins] == under.coins + cacheCoins;
      cacheCoins := cacheCoins[txid := coins];
      assert Under() == under;
    }

    method HaveCoins(txid: Txid) returns (have: bool)
      requires Valid()
      modifies Repr
      ensures Below() == old(Below()) && Top() == old(Top())
      ensures have <==> txid in Top().coins
    {
      var r := GetCoins(txid);
      have := r.Some?;
    }

    method SetCoins(txid: Txid, coins: Coins)
      requires Valid()
      modifies this`cacheCoins
      ensures Below() == old(Below())
      ensures Top() == old(Top()).(coins := old(Top()).coins[txid := coins])
    {
      ghost var under := Under();
      assert under.coins + cacheCoins[txid := coins] == (under.coins + cacheCoins)[txid := coins];
      cacheCoins := cacheCoins[txid := coins];
      assert Under() == under;
    }

    method GetBestBlock() returns (pindex: CBlockIndex?)
      requires Valid()
      modifies Repr
      ensures Below() == old(Below()) && Top() == old(Top()) && pindex == Top().best == pindexTip
      decreases depth
    {
      if pindexTip == null {
        if base == null {
          RememberTip(db.best);
        } else {
          var tip := base.GetBestBlock();
          RememberTip(tip);
        }
      }
      pindex := pindexTip;
    }

    method RememberTip(pindex: CBlockIndex?)
      requires Valid() && pindexTip == null && pindex == Under().best
      modifies this`pindexTip
      ensures Below() == old(Below()) && Top() == old(Top()) && pindexTip == pindex
    {
      ghost var under := Under();
      pindexTip := pindex;
      assert Under() == under;
    }

    method SetBestBlock(pindex: CBlockIndex)
      requires Valid()
      modifies this`pindexTip
      ensures Below() == old(Below()) && Top() == old(Top()).(best := pindex) && pindexTip == pindex
    {
      pindexTip := pindex;
    }

    /** `CCoinsViewCache::BatchWrite`: takes over every record and the tip, even a null one. */
    method BatchWrite(mapCoins: CoinMap, pindex: CBlockIndex?)
      requires Valid()
      modifies this
      ensures Below() == old(Below()) && pindexTip == pindex
      ensures Top().coins == old(Top()).coins + mapCoins
    {
      hide Below;
      var cache, left := cacheCoins, mapCoins.Keys;
      while left != {}
        invariant left <= mapCoins.Keys && cache == cacheCoins + (mapCoins - left)
        modifies {}
      {
        var id :| id in left;
        MergeStep(cacheCoins, mapCoins, left, id);
        cache := cache[id := mapCoins[id]];
        left := left - {id};
      }
      assert mapCoins - left == mapCoins;
      Replace(cache, pindex);
      MergeAll(Under().coins, old(cacheCoins), mapCoins);
    }

    method Replace(cache: CoinMap, pindex: CBlockIndex?)
      requires Valid()
      modifies this
      ensures Below() == old(Below()) && cacheCoins == cache && pindexTip == pindex
    {
      cacheCoins, pindexTip := cache, pindex;
    }

    /** Whether this cache hands its best block down: it knows one, or the database keeps its own. */
    ghost predicate TipReachesBelow()
      reads this
    {
      pindexTip != null || base == null
    }

    /** `Flush`: afterwards the layer below shows the coins this one showed, although the
        database drops pruned records and stores the others; deeper layers are untouched, and
        this cache is empty.  From cache to cache, and without negative versions or heights,
        nothing at all is lost.  The best block follows when this cache had looked at it or set it,
        and otherwise the layer below takes over the one below that, which may be another. */
    method Flush(fWritten: bool) returns (ok: bool)
      requires Valid()
      modifies Repr
      ensures !ok ==> Below() == old(Below()) && Top() == old(Top())
      ensures ok ==> cacheCoins == map[]
      ensures ok <==> base != null || fWritten
      ensures ok ==> Deeper() == old(Deeper())
      ensures ok ==> Shows(Under().coins, old(Top()).coins) && Under().coins == Top().coins
      ensures ok && base == null ==> (Same(Under().coins, old(Top()).coins) <==> Lossless(old(cacheCoins)))
      ensures ok && base != null ==> Under().coins == old(Top()).coins == Top().coins
      ensures ok && old(TipReachesBelow()) ==> Under().best == old(Top()).best == Top().best
      ensures ok && !old(TipReachesBelow()) ==> Under().best == old(base.Under()).best == Top().best
      ensures ok ==>
                (Under().best == old(Top()).best <==>
                  old(TipReachesBelow()) || old(base.Under()).best == old(Top()).best)
    {
      if base == null {
        ok := FlushToDatabase(fWritten);
      } else {
        FlushToCache();
        ok := true;
      }
    }

    method FlushToDatabase(fWritten: bool) returns (ok: bool)
      requires Valid() && base == null
      modifies this, db
      ensures ok <==> fWritten
      ensures !ok ==> Under() == old(Under()) && Top() == old(Top())
      ensures ok ==> cacheCoins == map[] && pindexTip == old(pindexTip)
      ensures ok ==> Under() == Layer(Written(old(Under()).coins, old(cacheCoins)), old(Top()).best) == Top()
      ensures ok ==> Shows(Under().coins, old(Top()).coins)
      ensures ok ==> (Same(Under().coins, old(Top()).coins) <==> Lossless(old(cacheCoins)))
    {
      ok := db.BatchWrite(cacheCoins, pindexTip, fWritten);
      WrittenShows(old(db.coins), cacheCoins);
      if ok {
        Replace(map[], pindexTip);
        assert Under().coins + map[] == Under().coins;
      }
    }

    method FlushToCache()
      requires Valid() && base != null
      modifies Repr
      ensures base.Below() == old(base.Below())
      ensures cacheCoins == map[] && pindexTip == old(pindexTip)
      ensures Under().coins == old(Top()).coins == Top().coins
      ensures Under().best == if pindexTip == null then old(base.Under()).best else pindexTip
      ensures Top().best == Under().best
    {
      hide Below;
      base.BatchWrite(cacheCoins, pindexTip);
      Replace(map[], pindexTip);
      assert Under().coins + map[] == Under().coins;
    }
  }

  /** Flushing a cache that never looked at the best block makes the cache below forget
      its own: three layers, the middle one at `b`, the database still empty. */
  method FlushForgetsBestBlock(b: CBlockIndex) returns (lower: CoinsViewCache)
    ensures lower.Valid() && lower.Top().best == null
  {
    var db := new CoinsViewDB();
    lower := new CoinsViewCache.OverDatabase(db);
    lower.SetBestBlock(b);
    assert lower.Top().best == b;
    var upper := new CoinsViewCache(lower);
    assert upper.Top().best == b;
    var ok := upper.Flush(true);
    assert lower.Top() == upper.Under();
  }
}
