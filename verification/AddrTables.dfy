/** The tables of the address manager as plain values: what makes them agree, and how each kind of
    change keeps them in agreement. */
module AddrTables {
  import opened Wrappers

  const ADDRMAN_TRIED_BUCKET_COUNT := 64
  const ADDRMAN_TRIED_BUCKET_SIZE := 64
  const ADDRMAN_NEW_BUCKET_COUNT := 256
  const ADDRMAN_NEW_BUCKET_SIZE := 64
  const ADDRMAN_NEW_BUCKETS_PER_ADDRESS := 4
  const ADDRMAN_TRIED_ENTRIES_INSPECT_ON_EVICT := 4
  const ADDRMAN_GETADDR_MAX_PCT := 23
  const ADDRMAN_GETADDR_MAX := 2500

  type NetAddr = nat

  /** Service flags are the set of bits that are on. */
  type Services = set<nat>

  /** An address with its port; the containers are keyed by the address alone. */
  datatype Service = Service(addr: NetAddr, port: nat)

  datatype AddrInfo = AddrInfo(service: Service, nServices: Services, nTime: nat, nLastSuccess: int, nLastTry: int,
                               nAttempts: int, nRefCount: int, fInTried: bool, nRandomPos: int) {
    /** What `Check_` asks of the times of one entry. */
    predicate TimesOk() {
      nLastTry >= 0 && nLastSuccess >= 0 && (fInTried ==> nLastSuccess != 0)
    }

    /** The same entry, wherever it stands in `vRandom`. */
    predicate SameData(i: AddrInfo) {
      i == this.(nRandomPos := i.nRandomPos)
    }

    /** The same place in the containers. */
    predicate SamePlace(i: AddrInfo) {
      i.service == service && i.nRefCount == nRefCount && i.fInTried == fInTried && i.nRandomPos == nRandomPos
    }
  }

  /** An address as it arrives from a peer. */
  datatype Address = Address(service: Service, nServices: Services, nTime: nat) {
    /** The entry `Add_` makes for an address it did not know. */
    function Entry(nTimePenalty: int, nRandomPos: int): AddrInfo {
      AddrInfo(service, nServices, ToUint(Max(0, nTime - nTimePenalty)), 0, 0, 0, 0, false, nRandomPos)
    }

    /** What `Add_` learns about an entry it has already: a time that is newer by more than the
        update interval replaces the old one. */
    function Updated(info: AddrInfo, nTimePenalty: int, nNow: int): AddrInfo {
      var newer := nTime != 0 &&
        (info.nTime == 0 || info.nTime + nTimePenalty + (if nNow - nTime < 86400 then 3600 else 86400) < nTime);
      info.(nServices := info.nServices + nServices,
        nTime := if newer then ToUint(Max(0, nTime - nTimePenalty)) else info.nTime)
    }

    /** An entry that may still get another reference. */
    predicate Welcome(info: AddrInfo) {
      nTime > info.nTime && !info.fInTried && info.nRefCount < ADDRMAN_NEW_BUCKETS_PER_ADDRESS
    }
  }

  /** Stores a 64-bit time in the 32-bit field of an address. */
  function ToUint(t: int): nat { t % 0x1_0000_0000 }

  /** The ids in all buckets together, counted with multiplicity. */
  ghost function NewBag(vvNew: seq<set<int>>): multiset<int> {
    if vvNew == [] then multiset{} else NewBag(vvNew[..|vvNew| - 1]) + multiset(vvNew[|vvNew| - 1])
  }

  ghost function TriedBag(vvTried: seq<seq<int>>): multiset<int> {
    if vvTried == [] then multiset{} else TriedBag(vvTried[..|vvTried| - 1]) + multiset(vvTried[|vvTried| - 1])
  }

  lemma {:induction false} NewBagUpdate(vvNew: seq<set<int>>, b: nat, bucket: set<int>, id: int)
    requires b < |vvNew|
    ensures NewBag(vvNew[b := bucket])[id] + (if id in vvNew[b] then 1 else 0) ==
            NewBag(vvNew)[id] + if id in bucket then 1 else 0
  {
    var k := |vvNew| - 1;
    if b < k {
      NewBagUpdate(vvNew[..k], b, bucket, id);
      assert vvNew[b := bucket][..k] == vvNew[..k][b := bucket];
    } else {
      assert vvNew[b := bucket][..k] == vvNew[..k];
    }
  }

  lemma {:induction false} TriedBagUpdate(vvTried: seq<seq<int>>, b: nat, bucket: seq<int>, id: int)
    requires b < |vvTried|
    ensures TriedBag(vvTried[b := bucket])[id] + multiset(vvTried[b])[id] ==
            TriedBag(vvTried)[id] + multiset(bucket)[id]
  {
    var k := |vvTried| - 1;
    if b < k {
      TriedBagUpdate(vvTried[..k], b, bucket, id);
      assert vvTried[b := bucket][..k] == vvTried[..k][b := bucket];
    } else {
      assert vvTried[b := bucket][..k] == vvTried[..k];
    }
  }

  /** An id in some bucket is in the bag, and the other way round. */
  lemma {:induction false} InNewBag(vvNew: seq<set<int>>, id: int)
    ensures NewBag(vvNew)[id] > 0 <==> exists b :: 0 <= b < |vvNew| && id in vvNew[b]
  {
    if vvNew != [] {
      var k := |vvNew| - 1;
      InNewBag(vvNew[..k], id);
      assert forall b | 0 <= b < k :: vvNew[..k][b] == vvNew[b];
    }
  }

  lemma {:induction false} InTriedBag(vvTried: seq<seq<int>>, b: nat, id: int)
    requires b < |vvTried| && id in vvTried[b]
    ensures TriedBag(vvTried)[id] > 0
  {
    var k := |vvTried| - 1;
    if b < k {
      InTriedBag(vvTried[..k], b, id);
    } else {
      assert id in multiset(vvTried[k]);
    }
  }

  ghost function TriedIds(mapInfo: map<int, AddrInfo>): set<int> { set id | id in mapInfo && mapInfo[id].fInTried }

  ghost function NewIds(mapInfo: map<int, AddrInfo>): set<int> { set id | id in mapInfo && !mapInfo[id].fInTried }

  ghost function Refs(mapInfo: map<int, AddrInfo>, id: int): int { if id in mapInfo then mapInfo[id].nRefCount else 0 }

  ghost function Mark(mapInfo: map<int, AddrInfo>, id: int): int {
    if id in mapInfo && mapInfo[id].fInTried then 1 else 0
  }

  // ---------- the parts of the invariant, on plain values ----------

  /** `vRandom` is a permutation of the known ids, and `nRandomPos` is its inverse. */
  ghost predicate RandomOk(mapInfo: map<int, AddrInfo>, vRandom: seq<int>) {
    && (forall i | 0 <= i < |vRandom| :: vRandom[i] in mapInfo && mapInfo[vRandom[i]].nRandomPos == i)
    && forall id | id in mapInfo :: 0 <= mapInfo[id].nRandomPos < |vRandom| && vRandom[mapInfo[id].nRandomPos] == id
  }

  /** `mapAddr` finds every known address, and nothing else. */
  ghost predicate AddrOk(mapInfo: map<int, AddrInfo>, mapAddr: map<NetAddr, int>) {
    && (forall id | id in mapInfo :: mapInfo[id].service.addr in mapAddr && mapAddr[mapInfo[id].service.addr] == id)
    && forall a | a in mapAddr :: mapAddr[a] in mapInfo && mapInfo[mapAddr[a]].service.addr == a
  }

  /** An id is in the tried table once if it is marked tried, and not at all otherwise. */
  ghost predicate TriedOk(mapInfo: map<int, AddrInfo>, vvTried: seq<seq<int>>) {
    && |vvTried| == ADDRMAN_TRIED_BUCKET_COUNT
    && (forall b | 0 <= b < |vvTried| :: |vvTried[b]| <= ADDRMAN_TRIED_BUCKET_SIZE)
    && forall id: int :: TriedBag(vvTried)[id] == Mark(mapInfo, id)
  }

  /** An id is in as many new buckets as its reference count says, less one for an id that is
      about to be inserted. */
  ghost predicate NewOk(mapInfo: map<int, AddrInfo>, vvNew: seq<set<int>>, pending: multiset<int>) {
    && |vvNew| == ADDRMAN_NEW_BUCKET_COUNT
    && (forall b | 0 <= b < |vvNew| :: |vvNew[b]| <= ADDRMAN_NEW_BUCKET_SIZE)
    && forall id: int :: NewBag(vvNew)[id] + pending[id] == Refs(mapInfo, id)
  }

  /** Tried entries have no references, new ones between one and four; `exempt` may break it
      in the middle of an operation. */
  ghost predicate RefsOk(mapInfo: map<int, AddrInfo>, nIdCount: int, exempt: set<int>) {
    forall id | id in mapInfo :: 0 <= id < nIdCount &&
      (id in exempt || if mapInfo[id].fInTried then mapInfo[id].nRefCount == 0
        else 1 <= mapInfo[id].nRefCount <= ADDRMAN_NEW_BUCKETS_PER_ADDRESS)
  }

  ghost predicate CountsOk(mapInfo: map<int, AddrInfo>, nTried: int, nNew: int) {
    nTried == |TriedIds(mapInfo)| && nNew == |NewIds(mapInfo)|
  }

  ghost predicate AllTimes(mapInfo: map<int, AddrInfo>) {
    forall id | id in mapInfo :: mapInfo[id].TimesOk()
  }

  /** Tried and new split the known ids, so the counters add up to the length of `vRandom`. */
  lemma CountsAddUp(mapInfo: map<int, AddrInfo>, vRandom: seq<int>, nTried: int, nNew: int)
    requires RandomOk(mapInfo, vRandom) && CountsOk(mapInfo, nTried, nNew)
    ensures |vRandom| == nTried + nNew == |mapInfo|
  {
    IdsSplit(mapInfo);
    RandomIsKeys(mapInfo, vRandom);
    SeqOfDistinct(vRandom);
  }

  lemma IdsSplit(mapInfo: map<int, AddrInfo>)
    ensures |mapInfo| == |mapInfo.Keys| == |TriedIds(mapInfo)| + |NewIds(mapInfo)|
  {
    assert TriedIds(mapInfo) + NewIds(mapInfo) == mapInfo.Keys && TriedIds(mapInfo) * NewIds(mapInfo) == {};
  }

  lemma RandomIsKeys(mapInfo: map<int, AddrInfo>, vRandom: seq<int>)
    requires RandomOk(mapInfo, vRandom)
    ensures mapInfo.Keys == set i | 0 <= i < |vRandom| :: vRandom[i]
    ensures forall i, j | 0 <= i < j < |vRandom| :: vRandom[i] != vRandom[j]
  {
    assert forall id | id in mapInfo :: vRandom[mapInfo[id].nRandomPos] == id;
  }

  lemma {:induction false} SeqOfDistinct(s: seq<int>)
    requires forall i, j | 0 <= i < j < |s| :: s[i] != s[j]
    ensures |s| == |set i | 0 <= i < |s| :: s[i]|
  {
    if s != [] {
      var k := |s| - 1;
      SeqOfDistinct(s[..k]);
      assert (set i | 0 <= i < |s| :: s[i]) == (set i | 0 <= i < k :: s[..k][i]) + {s[k]};
    }
  }

  // ---------- how the parts survive a change ----------

  /** Entries may have moved within `vRandom`, and nothing else has changed. */
  ghost predicate OnlyMoved(m: map<int, AddrInfo>, m': map<int, AddrInfo>) {
    m'.Keys == m.Keys && forall id | id in m :: m'[id] == m[id].(nRandomPos := m'[id].nRandomPos)
  }

  lemma MovedKeeps(m: map<int, AddrInfo>, m': map<int, AddrInfo>, mapAddr: map<NetAddr, int>, vvTried: seq<seq<int>>,
                   vvNew: seq<set<int>>, pending: multiset<int>, exempt: set<int>, nIdCount: int, nTried: int,
                     nNew: int)
    requires OnlyMoved(m, m')
    ensures AddrOk(m, mapAddr) ==> AddrOk(m', mapAddr)
    ensures TriedOk(m, vvTried) ==> TriedOk(m', vvTried)
    ensures NewOk(m, vvNew, pending) ==> NewOk(m', vvNew, pending)
    ensures RefsOk(m, nIdCount, exempt) ==> RefsOk(m', nIdCount, exempt)
    ensures CountsOk(m, nTried, nNew) ==> CountsOk(m', nTried, nNew)
    ensures AllTimes(m) <==> AllTimes(m')
  {
    assert forall id :: id in m <==> id in m' by { assert forall id :: id in m.Keys <==> id in m'.Keys; }
    forall id ensures (id in TriedIds(m') <==> id in TriedIds(m)) && (id in NewIds(m') <==> id in NewIds(m)) {
      assert id in m ==> m'[id].fInTried == m[id].fInTried;
    }
    assert TriedIds(m') == TriedIds(m);
    assert NewIds(m') == NewIds(m);
    assert forall id :: Refs(m', id) == Refs(m, id) && Mark(m', id) == Mark(m, id);
  }

  /** An entry keeps its address and its place in `vRandom`. */
  lemma ReplaceKeeps(m: map<int, AddrInfo>, id: int, info: AddrInfo, mapAddr: map<NetAddr, int>, vRandom: seq<int>)
    requires id in m && info.service.addr == m[id].service.addr && info.nRandomPos == m[id].nRandomPos
    ensures RandomOk(m, vRandom) ==> RandomOk(m[id := info], vRandom)
    ensures AddrOk(m, mapAddr) ==> AddrOk(m[id := info], mapAddr)
  {
  }

  lemma ReplaceCounts(m: map<int, AddrInfo>, id: int, info: AddrInfo)
    requires id in m
    ensures TriedIds(m[id := info]) == if info.fInTried then TriedIds(m) + {id} else TriedIds(m) - {id}
    ensures NewIds(m[id := info]) == if info.fInTried then NewIds(m) - {id} else NewIds(m) + {id}
  {
  }

  /** An entry whose count and mark stay as they are. */
  lemma DataKeeps(m: map<int, AddrInfo>, id: int, info: AddrInfo, mapAddr: map<NetAddr, int>, vRandom: seq<int>,
                  vvTried: seq<seq<int>>, vvNew: seq<set<int>>, pending: multiset<int>, exempt: set<int>, nIdCount: int,
                    nTried: int, nNew: int)
    requires id in m && info.service.addr == m[id].service.addr && info.nRandomPos == m[id].nRandomPos
    requires info.nRefCount == m[id].nRefCount && info.fInTried == m[id].fInTried
    requires RandomOk(m, vRandom) && AddrOk(m, mapAddr) && TriedOk(m, vvTried) && NewOk(m, vvNew, pending)
    requires RefsOk(m, nIdCount, exempt) && CountsOk(m, nTried, nNew)
    ensures RandomOk(m[id := info], vRandom) && AddrOk(m[id := info], mapAddr) && TriedOk(m[id := info], vvTried)
    ensures NewOk(m[id := info], vvNew, pending) && RefsOk(m[id := info], nIdCount, exempt) &&
            CountsOk(m[id := info], nTried, nNew)
  {
    ReplaceKeeps(m, id, info, mapAddr, vRandom);
    assert TriedIds(m[id := info]) == TriedIds(m) && NewIds(m[id := info]) == NewIds(m);
    assert forall k :: Refs(m[id := info], k) == Refs(m, k) && Mark(m[id := info], k) == Mark(m, k);
  }

  /** A bucket of the new table and the reference counts change together. */
  lemma NewStep(m: map<int, AddrInfo>, m': map<int, AddrInfo>, vvNew: seq<set<int>>, b: nat, bucket: set<int>,
                pending: multiset<int>, pending': multiset<int>)
    requires NewOk(m, vvNew, pending) && b < |vvNew| && |bucket| <= ADDRMAN_NEW_BUCKET_SIZE
    requires forall id: int ::
               (if id in bucket then 1 else 0) + pending'[id] + Refs(m, id) ==
                 (if id in vvNew[b] then 1 else 0) + pending[id] + Refs(m', id)
    ensures NewOk(m', vvNew[b := bucket], pending')
  {
    forall id: int ensures NewBag(vvNew[b := bucket])[id] + pending'[id] == Refs(m', id) {
      NewBagUpdate(vvNew, b, bucket, id);
    }
  }

  /** A bucket of the tried table and the marks change together. */
  lemma TriedStep(m: map<int, AddrInfo>, m': map<int, AddrInfo>, vvTried: seq<seq<int>>, b: nat, bucket: seq<int>)
    requires TriedOk(m, vvTried) && b < |vvTried| && |bucket| <= ADDRMAN_TRIED_BUCKET_SIZE
    requires forall id: int :: multiset(bucket)[id] + Mark(m, id) == multiset(vvTried[b])[id] + Mark(m', id)
    ensures TriedOk(m', vvTried[b := bucket])
  {
    forall id: int ensures TriedBag(vvTried[b := bucket])[id] == Mark(m', id) {
      TriedBagUpdate(vvTried, b, bucket, id);
    }
  }

  /** One reference to `id` is gone, and the entry with it when it was the last one; the other
      entries may have moved within `vRandom`. */
  ghost predicate GivenUp(m: map<int, AddrInfo>, m': map<int, AddrInfo>, id: int) {
    && id in m && !m[id].fInTried
    && m'.Keys == (if m[id].nRefCount == 1 then m.Keys - {id} else m.Keys)
    && forall k | k in m' ::
       m'[k] == m[k].(nRandomPos := m'[k].nRandomPos, nRefCount := m[k].nRefCount - if k == id then 1 else 0)
  }

  lemma GivenUpLast(m: map<int, AddrInfo>, m': map<int, AddrInfo>, id: int)
    requires OnlyMoved(m, m') && id in m && !m[id].fInTried && m[id].nRefCount == 1
    ensures GivenUp(m, m' - {id}, id)
  {
  }

  lemma GivenUpOne(m: map<int, AddrInfo>, id: int, info: AddrInfo)
    requires id in m && !m[id].fInTried && m[id].nRefCount != 1 && info == m[id].(nRefCount := m[id].nRefCount - 1)
    ensures GivenUp(m, m[id := info], id)
  {
  }

  lemma MovedEntry(m: map<int, AddrInfo>, m': map<int, AddrInfo>, id: int)
    requires OnlyMoved(m, m') && id in m
    ensures id in m' && m'[id] == m[id].(nRandomPos := m'[id].nRandomPos)
  {
  }

  /** The last id of `vRandom` is forgotten. */
  lemma ForgetLast(m: map<int, AddrInfo>, id: int, mapAddr: map<NetAddr, int>, vRandom: seq<int>)
    requires RandomOk(m, vRandom) && AddrOk(m, mapAddr) && vRandom != [] && vRandom[|vRandom| - 1] == id
    ensures id in m && RandomOk(m - {id}, vRandom[..|vRandom| - 1]) && AddrOk(m - {id}, mapAddr - {m[id].service.addr})
    ensures TriedIds(m - {id}) == TriedIds(m) - {id} && NewIds(m - {id}) == NewIds(m) - {id}
  {
  }

  /** What is in a new bucket is a known id that is not tried. */
  lemma InNewBucket(m: map<int, AddrInfo>, vvNew: seq<set<int>>, pending: multiset<int>, nIdCount: int, b: nat, id: int)
    requires NewOk(m, vvNew, pending) && RefsOk(m, nIdCount, {}) && b < |vvNew| && id in vvNew[b]
    ensures id in m && !m[id].fInTried && m[id].nRefCount >= 1
  {
    InNewBag(vvNew, id);
  }

  /** What is in a tried bucket is a known id that is marked. */
  lemma InTriedBucket(m: map<int, AddrInfo>, vvTried: seq<seq<int>>, b: nat, id: int)
    requires TriedOk(m, vvTried) && b < |vvTried| && id in vvTried[b]
    ensures id in m && m[id].fInTried
  {
    InTriedBag(vvTried, b, id);
  }

  /** `id` became tried; an evicted entry became new again; nothing else changed. */
  ghost predicate Promoted(m: map<int, AddrInfo>, m': map<int, AddrInfo>, id: int, evicted: Option<int>) {
    && id in m && !m[id].fInTried && m'.Keys == m.Keys
    && m'[id] == m[id].(fInTried := true, nRefCount := 0)
    && (evicted.Some? ==>
       evicted.value in m && m[evicted.value].fInTried &&
         m'[evicted.value] == m[evicted.value].(fInTried := false, nRefCount := 1))
    && forall k | k in m && k != id && Some(k) != evicted :: m'[k] == m[k]
  }

  lemma PromotedAlone(m: map<int, AddrInfo>, m1: map<int, AddrInfo>, id: int)
    requires id in m && !m[id].fInTried && m1 == m[id := m[id].(nRefCount := 0)]
    ensures Promoted(m, m1[id := m1[id].(fInTried := true)], id, None)
  {
  }

  lemma PromotedFor(m: map<int, AddrInfo>, m1: map<int, AddrInfo>, id: int, e: int)
    requires id in m && !m[id].fInTried && m1 == m[id := m[id].(nRefCount := 0)] && e in m && m[e].fInTried
    ensures Promoted(m, m1[e := m1[e].(fInTried := false, nRefCount := 1)][id := m1[id].(fInTried := true)], id,
            Some(e))
  {
  }

  /** The steps of `MakeTried` on plain values. */
  lemma EnterTried(m: map<int, AddrInfo>, id: int, info: AddrInfo, vvTried: seq<seq<int>>, b: nat, vvNew: seq<set<int>>,
                   nIdCount: int, nTried: int, nNew: int)
    requires id in m && !m[id].fInTried && m[id].nRefCount == 0 && info == m[id].(fInTried := true)
    requires b < |vvTried| && |vvTried[b]| < ADDRMAN_TRIED_BUCKET_SIZE
    requires TriedOk(m, vvTried) && NewOk(m, vvNew, multiset{}) && RefsOk(m, nIdCount, {id}) &&
             CountsOk(m, nTried, nNew)
    ensures TriedOk(m[id := info], vvTried[b := vvTried[b] + [id]]) && NewOk(m[id := info], vvNew, multiset{})
    ensures RefsOk(m[id := info], nIdCount, {}) && CountsOk(m[id := info], nTried + 1, nNew - 1)
  {
    ReplaceCounts(m, id, info);
    assert forall k ::
             Mark(m[id := info], k) == Mark(m, k) + (if k == id then 1 else 0) && Refs(m[id := info], k) == Refs(m, k);
    TriedStep(m, m[id := info], vvTried, b, vvTried[b] + [id]);
    assert id !in TriedIds(m) && id in NewIds(m);
  }

  lemma Exchange(m: map<int, AddrInfo>, id: int, info: AddrInfo, e: int, infoOld: AddrInfo, vvTried: seq<seq<int>>,
                 b: nat, nPos: nat, vvNew: seq<set<int>>, nIdCount: int, nTried: int, nNew: int)
    requires id in m && !m[id].fInTried && info == m[id].(fInTried := true)
    requires e in m && m[e].fInTried && infoOld == m[e].(fInTried := false, nRefCount := 1)
    requires b < |vvTried| && nPos < |vvTried[b]| && vvTried[b][nPos] == e
    requires TriedOk(m, vvTried) && CountsOk(m, nTried, nNew)
    ensures TriedOk(m[e := infoOld][id := info], vvTried[b := vvTried[b][nPos := id]]) &&
            CountsOk(m[e := infoOld][id := info], nTried, nNew)
  {
    var m' := m[e := infoOld][id := info];
    assert forall k :: Mark(m', k) == Mark(m, k) + if k == id then 1 else if k == e then -1 else 0;
    TriedStep(m, m', vvTried, b, vvTried[b][nPos := id]);
    ReplaceCounts(m, e, infoOld);
    ReplaceCounts(m[e := infoOld], id, info);
    assert TriedIds(m') == TriedIds(m) - {e} + {id} && NewIds(m') == NewIds(m) + {e} - {id};
    assert id !in TriedIds(m) && e in TriedIds(m) && id in NewIds(m) && e !in NewIds(m);
  }

  lemma ExchangeNew(m: map<int, AddrInfo>, id: int, info: AddrInfo, e: int, infoOld: AddrInfo, vvNew: seq<set<int>>,
                    home: nat, nIdCount: int)
    requires id in m && !m[id].fInTried && m[id].nRefCount == 0 && info == m[id].(fInTried := true)
    requires e in m && m[e].fInTried && infoOld == m[e].(fInTried := false, nRefCount := 1)
    requires home < |vvNew| && |vvNew[home]| < ADDRMAN_NEW_BUCKET_SIZE
    requires NewOk(m, vvNew, multiset{}) && RefsOk(m, nIdCount, {id})
    ensures NewOk(m[e := infoOld][id := info], vvNew[home := vvNew[home] + {e}], multiset{})
    ensures RefsOk(m[e := infoOld][id := info], nIdCount, {})
  {
    var m' := m[e := infoOld][id := info];
    assert m[e].nRefCount == 0;
    InNewBag(vvNew, e);
    assert forall k :: Refs(m', k) == Refs(m, k) + if k == e then 1 else 0;
    NewStep(m, m', vvNew, home, vvNew[home] + {e}, multiset{}, multiset{});
  }

  lemma LetGo(m: map<int, AddrInfo>, id: int, info: AddrInfo, vvTried: seq<seq<int>>, vvNew: seq<set<int>>, b: nat,
              nIdCount: int, nTried: int, nNew: int)
    requires id in m && !m[id].fInTried && info == m[id].(nRefCount := m[id].nRefCount - 1) && b < |vvNew| &&
             id in vvNew[b]
    requires TriedOk(m, vvTried) && NewOk(m, vvNew, multiset{}) && RefsOk(m, nIdCount, {id}) &&
             CountsOk(m, nTried, nNew)
    ensures TriedOk(m[id := info], vvTried) && NewOk(m[id := info], vvNew[b := vvNew[b] - {id}], multiset{})
    ensures RefsOk(m[id := info], nIdCount, {id}) && CountsOk(m[id := info], nTried, nNew)
    ensures |vvNew[b] - {id}| < ADDRMAN_NEW_BUCKET_SIZE
  {
    assert forall k ::
             Mark(m[id := info], k) == Mark(m, k) && Refs(m[id := info], k) == Refs(m, k) - if k == id then 1 else 0;
    NewStep(m, m[id := info], vvNew, b, vvNew[b] - {id}, multiset{}, multiset{});
    assert TriedIds(m[id := info]) == TriedIds(m) && NewIds(m[id := info]) == NewIds(m);
  }

  lemma RefsExempt(m: map<int, AddrInfo>, nIdCount: int, id: int)
    requires RefsOk(m, nIdCount, {})
    ensures RefsOk(m, nIdCount, {id})
  {
  }

  lemma NewSizes(m: map<int, AddrInfo>, vvNew: seq<set<int>>, pending: multiset<int>)
    requires NewOk(m, vvNew, pending)
    ensures |vvNew| == ADDRMAN_NEW_BUCKET_COUNT && forall b | 0 <= b < |vvNew| :: |vvNew[b]| <= ADDRMAN_NEW_BUCKET_SIZE
  {
  }

  lemma NoBuckets(m: map<int, AddrInfo>, vvNew: seq<set<int>>, id: int)
    requires NewOk(m, vvNew, multiset{}) && id in m && forall b | 0 <= b < |vvNew| :: id !in vvNew[b]
    ensures m[id].nRefCount == 0
  {
    InNewBag(vvNew, id);
  }

  lemma SwapKeeps(s: seq<int>, i: nat, j: nat)
    requires i < |s| && j < |s|
    ensures multiset(s[i := s[j]][j := s[i]]) == multiset(s)
  {
  }

  lemma Shuffled(m: map<int, AddrInfo>, vvTried: seq<seq<int>>, b: nat, bucket: seq<int>)
    requires TriedOk(m, vvTried) && b < |vvTried| && multiset(bucket) == multiset(vvTried[b]) &&
             |bucket| == |vvTried[b]|
    ensures TriedOk(m, vvTried[b := bucket])
  {
    TriedStep(m, m, vvTried, b, bucket);
  }

  /** A bucket after the first k exchanges of `SelectTried`, turn i with the position drawn for it. */
  function Exchanged(v: seq<int>, draws: seq<nat>, k: nat): (w: seq<int>)
    requires k <= |v| && k <= |draws| && forall i | 0 <= i < k :: i <= draws[i] < |v|
    ensures |w| == |v|
  {
    if k == 0 then v else
      var u := Exchanged(v, draws, k - 1);
      u[draws[k - 1] := u[k - 1]][k - 1 := u[draws[k - 1]]]
  }

  lemma NoneDrawn(v: seq<int>, draws: seq<nat>)
    ensures Exchanged(v, draws, 0) == v
  {
  }

  lemma ExchangedNext(v: seq<int>, draws: seq<nat>, k: nat)
    requires k < |v| && k < |draws| && forall i | 0 <= i <= k :: i <= draws[i] < |v|
    ensures var u, w := Exchanged(v, draws, k), Exchanged(v, draws, k + 1);
            && w == u[draws[k] := u[k]][k := u[draws[k]]] && multiset(w) == multiset(u)
            && w[k] == u[draws[k]] && forall j | 0 <= j < k :: w[j] == u[j]
  {
    SwapKeeps(Exchanged(v, draws, k), draws[k], k);
  }

  /** The entry drawn in turn t is the first of the oldest among those drawn in the first k turns,
      which stand in front of the bucket. */
  ghost predicate Judged(m: map<int, AddrInfo>, w: seq<int>, k: nat, t: nat) {
    && t < k <= |w| && (forall j | 0 <= j < k :: w[j] in m)
    && (forall j | 0 <= j < k :: m[w[t]].nLastSuccess <= m[w[j]].nLastSuccess)
    && forall j | 0 <= j < t :: m[w[t]].nLastSuccess < m[w[j]].nLastSuccess
  }

  /** What the eviction from a full bucket comes to: the entry that leaves stands at the position drawn
      in the turn that judged another, or itself, to be the oldest. */
  ghost predicate Evicted(m: map<int, AddrInfo>, v: seq<int>, draws: seq<nat>, t: nat, id: int)
    requires 4 <= |v| && |draws| == 4 && forall i | 0 <= i < 4 :: i <= draws[i] < |v|
  {
    var w := Exchanged(v, draws, 4);
    Judged(m, w, 4, t) && id == w[draws[t]] && (id == w[t] <==> draws[t] == t)
  }

  lemma EvictedSame(m: map<int, AddrInfo>, id: int, info: AddrInfo, v: seq<int>, draws: seq<nat>, t: nat, e: int)
    requires id in m && info.nLastSuccess == m[id].nLastSuccess
    requires 4 <= |v| && |draws| == 4 && forall i | 0 <= i < 4 :: i <= draws[i] < |v|
    ensures Evicted(m[id := info], v, draws, t, e) <==> Evicted(m, v, draws, t, e)
  {
    JudgedSame(m, id, info, Exchanged(v, draws, 4), 4, t);
  }

  lemma IdsNonnegative(m: map<int, AddrInfo>, nIdCount: nat, id: int)
    requires RefsOk(m, nIdCount, {id})
    ensures forall k | k in m :: k >= 0
  {
  }

  lemma JudgedFirst(m: map<int, AddrInfo>, w: seq<int>)
    requires w != [] && w[0] in m
    ensures Judged(m, w, 1, 0)
  {
  }

  /** A later exchange leaves the entries drawn before it where they stand. */
  lemma JudgedNext(m: map<int, AddrInfo>, w: seq<int>, w': seq<int>, k: nat, t: nat)
    requires Judged(m, w, k, t) && |w'| == |w| && k < |w'| && w'[k] in m && forall j | 0 <= j < k :: w'[j] == w[j]
    ensures Judged(m, w', k + 1, if m[w'[k]].nLastSuccess < m[w[t]].nLastSuccess then k else t)
  {
  }

  /** Only the times of success matter. */
  lemma JudgedSame(m: map<int, AddrInfo>, id: int, info: AddrInfo, w: seq<int>, k: nat, t: nat)
    requires id in m && info.nLastSuccess == m[id].nLastSuccess
    ensures Judged(m[id := info], w, k, t) <==> Judged(m, w, k, t)
  {
  }

  /** No entry is twice in a bucket of the tried table. */
  lemma DistinctInTried(m: map<int, AddrInfo>, vvTried: seq<seq<int>>, b: nat, i: nat, j: nat)
    requires TriedOk(m, vvTried) && b < |vvTried| && i < j < |vvTried[b]|
    ensures vvTried[b][i] != vvTried[b][j]
  {
    hide TriedBag;
    var v := vvTried[b];
    TriedBagUpdate(vvTried, b, [], v[i]);
    assert TriedBag(vvTried)[v[i]] <= 1;
    Twice(v, i, j);
  }

  lemma Twice(v: seq<int>, i: nat, j: nat)
    requires i < j < |v|
    ensures v[i] == v[j] ==> multiset(v)[v[i]] >= 2
  {
    assert v == v[..i] + [v[i]] + v[i + 1..j] + [v[j]] + v[j + 1..];
  }

  /** A draw that is taken first and judged oldest is put in front, while its old position, now that of
      another and younger entry, is remembered. */
  lemma YoungerReturned(m: map<int, AddrInfo>, v: seq<int>, k: nat)
    requires 2 <= k <= |v| && k <= 4 && (forall j | 0 <= j < k :: v[j] in m)
    requires forall j | 0 <= j < k && j != 1 :: m[v[1]].nLastSuccess < m[v[j]].nLastSuccess
    ensures var draws: seq<nat> := [1, 1, 2, 3];
            var w := Exchanged(v, draws, k);
            Judged(m, w, k, 0) && w[0] == v[1] && w[draws[0]] == v[0] &&
              m[w[draws[0]]].nLastSuccess > m[w[0]].nLastSuccess
  {
    var draws: seq<nat> := [1, 1, 2, 3];
    var w := v[1 := v[0]][0 := v[1]];
    assert Exchanged(v, draws, 1) == w;
    assert Exchanged(v, draws, 2) == w;
    if k > 2 { assert Exchanged(v, draws, 3) == w; }
    if k > 3 { assert Exchanged(v, draws, 4) == w; }
  }

  /** One more reference to `id`; an evicted entry loses one. */
  ghost predicate Joined(m: map<int, AddrInfo>, m': map<int, AddrInfo>, id: int, evicted: Option<int>) {
    && id in m
    && var m1 := m[id := m[id].(nRefCount := m[id].nRefCount + 1)];
      if evicted.Some? then evicted.value != id && GivenUp(m1, m', evicted.value) else m' == m1
  }

  lemma JoinedTimes(m: map<int, AddrInfo>, m': map<int, AddrInfo>, id: int, evicted: Option<int>)
    requires Joined(m, m', id, evicted) && AllTimes(m)
    ensures AllTimes(m')
  {
  }

  lemma UpdatedTimes(m: map<int, AddrInfo>, id: int, addr: Address, nTimePenalty: int, nNow: int)
    requires id in m
    ensures var info := addr.Updated(m[id], nTimePenalty, nNow);
            m[id].SamePlace(info) && (AllTimes(m) ==> AllTimes(m[id := info]))
  {
  }

  lemma SeenTimes(m: map<int, AddrInfo>, id: int, seen: AddrInfo, m': map<int, AddrInfo>, evicted: Option<int>,
                  nTime: int)
    requires id in m && seen == m[id].(nLastSuccess := nTime, nLastTry := nTime, nTime := seen.nTime, nAttempts := 0)
    requires if m[id].fInTried then m' == m[id := seen] else Promoted(m[id := seen], m', id, evicted)
    ensures AllTimes(m) ==> (AllTimes(m') <==> nTime > 0)
  {
  }

  lemma AddrFound(m: map<int, AddrInfo>, mapAddr: map<NetAddr, int>, addr: NetAddr)
    requires AddrOk(m, mapAddr)
    ensures addr in mapAddr ==>
              mapAddr[addr] in m &&
              forall id | id in m && m[id].service.addr == addr :: mapAddr[addr] == id
    ensures addr !in mapAddr ==> forall id | id in m :: m[id].service.addr != addr
  {
  }

  lemma TriedSizes(m: map<int, AddrInfo>, vvTried: seq<seq<int>>)
    requires TriedOk(m, vvTried)
    ensures |vvTried| == ADDRMAN_TRIED_BUCKET_COUNT &&
            forall b | 0 <= b < |vvTried| :: |vvTried[b]| <= ADDRMAN_TRIED_BUCKET_SIZE
  {
  }

  lemma HasBucket(m: map<int, AddrInfo>, vvNew: seq<set<int>>, nIdCount: int, id: int)
    requires NewOk(m, vvNew, multiset{}) && RefsOk(m, nIdCount, {}) && id in m && !m[id].fInTried
    ensures exists b :: 0 <= b < |vvNew| && id in vvNew[b]
  {
    InNewBag(vvNew, id);
  }

  lemma NotInBuckets(m: map<int, AddrInfo>, vvNew: seq<set<int>>, id: int)
    requires NewOk(m, vvNew, multiset{}) && id in m && m[id].nRefCount == 0
    ensures forall b | 0 <= b < |vvNew| :: id !in vvNew[b]
  {
    InNewBag(vvNew, id);
  }

  lemma NotExempt(m: map<int, AddrInfo>, vvNew: seq<set<int>>, nIdCount: int, b: nat, id: int)
    requires NewOk(m, vvNew, multiset{}) && RefsOk(m, nIdCount, {id}) && b < |vvNew| && id in vvNew[b]
    requires id in m && !m[id].fInTried && m[id].nRefCount < ADDRMAN_NEW_BUCKETS_PER_ADDRESS
    ensures RefsOk(m, nIdCount, {})
  {
    InNewBag(vvNew, id);
  }

  lemma IsWelcome(m: map<int, AddrInfo>, nIdCount: int, id: int, addr: Address)
    requires RefsOk(m, nIdCount, {}) && id in m && addr.Welcome(m[id])
    ensures !m[id].fInTried && 0 <= m[id].nRefCount < ADDRMAN_NEW_BUCKETS_PER_ADDRESS
  {
  }

  lemma NoRefs(addr: Address, nTimePenalty: int, pos: int)
    ensures var info := addr.Entry(nTimePenalty, pos); !info.fInTried && info.nRefCount == 0
  {
  }

  lemma RefsOf(m: map<int, AddrInfo>, nIdCount: int, id: int)
    requires RefsOk(m, nIdCount, {}) && id in m
    ensures 0 <= m[id].nRefCount <= ADDRMAN_NEW_BUCKETS_PER_ADDRESS
  {
  }

  lemma OneMoreRef(m: map<int, AddrInfo>, id: int, info: AddrInfo, vvTried: seq<seq<int>>, vvNew: seq<set<int>>,
                   nIdCount: int, nTried: int, nNew: int)
    requires id in m && !m[id].fInTried && info == m[id].(nRefCount := m[id].nRefCount + 1) &&
             0 <= m[id].nRefCount < ADDRMAN_NEW_BUCKETS_PER_ADDRESS
    requires TriedOk(m, vvTried) && NewOk(m, vvNew, multiset{}) && RefsOk(m, nIdCount, {id}) &&
             CountsOk(m, nTried, nNew)
    ensures TriedOk(m[id := info], vvTried) && NewOk(m[id := info], vvNew, multiset{id})
    ensures RefsOk(m[id := info], nIdCount, {}) && CountsOk(m[id := info], nTried, nNew)
  {
    assert forall k ::
             Mark(m[id := info], k) == Mark(m, k) && Refs(m[id := info], k) == Refs(m, k) + if k == id then 1 else 0;
    assert TriedIds(m[id := info]) == TriedIds(m) && NewIds(m[id := info]) == NewIds(m);
  }

  /** The pending reference becomes a member of a bucket with room. */
  lemma Settle(m: map<int, AddrInfo>, vvNew: seq<set<int>>, b: nat, id: int)
    requires NewOk(m, vvNew, multiset{id}) && b < |vvNew| && id !in vvNew[b] && |vvNew[b]| < ADDRMAN_NEW_BUCKET_SIZE
    ensures NewOk(m, vvNew[b := vvNew[b] + {id}], multiset{})
  {
    NewStep(m, m, vvNew, b, vvNew[b] + {id}, multiset{id}, multiset{});
  }

  lemma NotMoved(m: map<int, AddrInfo>)
    ensures OnlyMoved(m, m)
  {
  }

  lemma MovedTwice(m: map<int, AddrInfo>, m': map<int, AddrInfo>, m'': map<int, AddrInfo>)
    requires OnlyMoved(m, m') && OnlyMoved(m', m'')
    ensures OnlyMoved(m, m'')
  {
  }

  /** What `Check_` asks of one entry. */
  ghost predicate EntryOk(m: map<int, AddrInfo>, mapAddr: map<NetAddr, int>, vRandom: seq<int>, id: int)
    requires id in m
  {
    && (if m[id].fInTried then m[id].nRefCount == 0 else 1 <= m[id].nRefCount <= ADDRMAN_NEW_BUCKETS_PER_ADDRESS)
    && m[id].service.addr in mapAddr && mapAddr[m[id].service.addr] == id
    && 0 <= m[id].nRandomPos < |vRandom| && vRandom[m[id].nRandomPos] == id
    && m[id].TimesOk()
  }

  ghost predicate EntriesOk(m: map<int, AddrInfo>, mapAddr: map<NetAddr, int>, vRandom: seq<int>, ids: set<int>) {
    forall id | id in ids :: id in m && EntryOk(m, mapAddr, vRandom, id)
  }

  ghost function CountsWithout(m: map<int, AddrInfo>, rest: set<int>): map<int, int> {
    map id | id in NewIds(m) && id !in rest :: m[id].nRefCount
  }

  lemma NoneSeen(m: map<int, AddrInfo>, mapAddr: map<NetAddr, int>, vRandom: seq<int>)
    ensures EntriesOk(m, mapAddr, vRandom, {}) && TriedIds(m) - m.Keys == {} && CountsWithout(m, m.Keys) == map[]
  {
    assert NewIds(m) <= m.Keys && CountsWithout(m, m.Keys).Keys == {};
  }

  lemma AllSeen(m: map<int, AddrInfo>, mapAddr: map<NetAddr, int>, vRandom: seq<int>)
    requires EntriesOk(m, mapAddr, vRandom, m.Keys)
    ensures forall id | id in m :: EntryOk(m, mapAddr, vRandom, id)
  {
  }

  lemma SeenOne(m: map<int, AddrInfo>, rest: set<int>, n: int)
    requires n in rest && n in m
    ensures TriedIds(m) - (rest - {n}) == if m[n].fInTried then TriedIds(m) - rest + {n} else TriedIds(m) - rest
    ensures CountsWithout(m, rest - {n}) ==
            if m[n].fInTried then CountsWithout(m, rest) else CountsWithout(m, rest)[n := m[n].nRefCount]
  {
  }

  /** What `Check_` tests, as one statement about all entries and all buckets. */
  ghost predicate Passes(m: map<int, AddrInfo>, mapAddr: map<NetAddr, int>, vRandom: seq<int>, nTried: int, nNew: int,
                         vvTried: seq<seq<int>>, vvNew: seq<set<int>>) {
    && |vRandom| == nTried + nNew && CountsOk(m, nTried, nNew)
    && (forall id | id in m :: EntryOk(m, mapAddr, vRandom, id))
    && (forall id: int :: TriedBag(vvTried)[id] == Mark(m, id))
    && forall id: int :: NewBag(vvNew)[id] == if id in m && !m[id].fInTried then m[id].nRefCount else 0
  }

  /** An address that is looked up and missing is inserted with id 0. */
  function Inserted(mapAddr: map<NetAddr, int>, a: NetAddr): map<NetAddr, int> {
    if a in mapAddr then mapAddr else mapAddr[a := 0]
  }

  /** The table after the entries in `done` were looked up and found under their own ids. */
  function LookedUp(m: map<int, AddrInfo>, mapAddr: map<NetAddr, int>, done: set<int>): map<NetAddr, int> {
    if 0 in done && 0 in m then Inserted(mapAddr, m[0].service.addr) else mapAddr
  }

  /** `CheckEntry` gets as far as the address. */
  predicate Reaches(info: AddrInfo) {
    if info.fInTried then info.nLastSuccess != 0 && info.nRefCount == 0
      else 1 <= info.nRefCount <= ADDRMAN_NEW_BUCKETS_PER_ADDRESS
  }

  /** Looking up one more entry: it passes on the table as it is by now exactly when it passes on the
      one where only id 0 was supplied. */
  lemma LookOne(m: map<int, AddrInfo>, mapAddr: map<NetAddr, int>, done: set<int>, n: int, vRandom: seq<int>)
    requires n in m && n !in done && done <= m.Keys && EntriesOk(m, LookedUp(m, mapAddr, m.Keys), vRandom, done)
    ensures var before := LookedUp(m, mapAddr, done);
            var after := if Reaches(m[n]) then Inserted(before, m[n].service.addr) else before;
            && (EntryOk(m, after, vRandom, n) <==> EntryOk(m, LookedUp(m, mapAddr, m.Keys), vRandom, n))
            && (EntryOk(m, after, vRandom, n) ==> after == LookedUp(m, mapAddr, done + {n}))
  {
  }

  /** With nothing missing the table stays as it is. */
  lemma NothingToInsert(m: map<int, AddrInfo>, mapAddr: map<NetAddr, int>)
    ensures (0 in m ==> m[0].service.addr in mapAddr) ==> LookedUp(m, mapAddr, m.Keys) == mapAddr
    ensures AddrOk(m, mapAddr) ==> 0 in m ==> m[0].service.addr in mapAddr
  {
  }

  /** A table that `Check_` must refuse and passes: all its buckets are empty but one of the new table,
      its one address is not in `mapAddr`, and the id is 0. */
  lemma MissingAddressPasses()
    ensures var m := map[0 := AddrInfo(Service(5, 9333), {}, 0, 0, 0, 0, 1, false, 0)];
            var vvTried: seq<seq<int>> := seq(ADDRMAN_TRIED_BUCKET_COUNT, _ => []);
            var vvNew: seq<set<int>> := seq(ADDRMAN_NEW_BUCKET_COUNT, _ => {})[7 := {0}];
            && !Passes(m, map[], [0], 0, 1, vvTried, vvNew)
            && Passes(m, LookedUp(m, map[], m.Keys), [0], 0, 1, vvTried, vvNew)
  {
    var m := map[0 := AddrInfo(Service(5, 9333), {}, 0, 0, 0, 0, 1, false, 0)];
    var vvTried: seq<seq<int>> := seq(ADDRMAN_TRIED_BUCKET_COUNT, _ => []);
    var empty: seq<set<int>> := seq(ADDRMAN_NEW_BUCKET_COUNT, _ => {});
    var vvNew := empty[7 := {0}];
    hide NewBag, TriedBag;
    assert !EntryOk(m, map[], [0], 0);
    assert TriedIds(m) == {} && NewIds(m) == {0};
    EmptyBags(vvTried, empty);
    forall id: int ensures NewBag(vvNew)[id] == if id == 0 then 1 else 0 { NewBagUpdate(empty, 7, {0}, id); }
  }

  lemma RandomKnown(m: map<int, AddrInfo>, vRandom: seq<int>, i: nat)
    requires RandomOk(m, vRandom) && i < |vRandom|
    ensures vRandom[i] in m
  {
  }

  lemma DistinctAddresses(m: map<int, AddrInfo>, mapAddr: map<NetAddr, int>, vRandom: seq<int>, i: nat, j: nat)
    requires RandomOk(m, vRandom) && AddrOk(m, mapAddr) && i < j < |vRandom|
    ensures vRandom[i] in m && vRandom[j] in m && m[vRandom[i]].service.addr != m[vRandom[j]].service.addr
  {
    assert m[vRandom[i]].nRandomPos != m[vRandom[j]].nRandomPos;
    assert mapAddr[m[vRandom[i]].service.addr] == vRandom[i] && mapAddr[m[vRandom[j]].service.addr] == vRandom[j];
  }

  /** In a sound table nothing is inserted. */
  lemma AddressKnown(m: map<int, AddrInfo>, mapAddr: map<NetAddr, int>, done: set<int>, id: int)
    requires id in m
    ensures AddrOk(m, mapAddr) ==> LookedUp(m, mapAddr, done) == mapAddr == Inserted(mapAddr, m[id].service.addr)
  {
  }

  lemma AllKnown(m: map<int, AddrInfo>, mapAddr: map<NetAddr, int>, done: set<int>)
    ensures AddrOk(m, mapAddr) ==> LookedUp(m, mapAddr, done) == mapAddr
  {
  }

  lemma NoneLookedUp(m: map<int, AddrInfo>, mapAddr: map<NetAddr, int>)
    ensures LookedUp(m, mapAddr, {}) == mapAddr
  {
  }

  /** Nothing was taken out or changed, and what was put in leads to id 0. */
  predicate Grown(mapAddr: map<NetAddr, int>, mapAddr': map<NetAddr, int>) {
    mapAddr.Keys <= mapAddr'.Keys && forall a | a in mapAddr' :: mapAddr'[a] == if a in mapAddr then mapAddr[a] else 0
  }

  lemma AsGiven(mapAddr: map<NetAddr, int>)
    ensures Grown(mapAddr, mapAddr)
  {
  }

  lemma AllGrown(m: map<int, AddrInfo>, mapAddr: map<NetAddr, int>, done: set<int>)
    ensures Grown(mapAddr, LookedUp(m, mapAddr, done))
  {
  }

  lemma OnlyGrown(m: map<int, AddrInfo>, mapAddr: map<NetAddr, int>, done: set<int>, n: int)
    requires n in m
    ensures Grown(mapAddr, LookedUp(m, mapAddr, done)) &&
            Grown(mapAddr, Inserted(LookedUp(m, mapAddr, done), m[n].service.addr))
  {
  }

  lemma RefPositive(m: map<int, AddrInfo>, mapAddr: map<NetAddr, int>, vRandom: seq<int>, id: int)
    requires id in m && EntryOk(m, mapAddr, vRandom, id)
    ensures !m[id].fInTried ==> m[id].nRefCount > 0
  {
  }

  lemma EntriesMore(m: map<int, AddrInfo>, mapAddr: map<NetAddr, int>, vRandom: seq<int>, ids: set<int>, n: int)
    requires n in m && EntryOk(m, mapAddr, vRandom, n) && EntriesOk(m, mapAddr, vRandom, ids)
    ensures EntriesOk(m, mapAddr, vRandom, ids + {n})
  {
  }

  lemma ZeroFails(m: map<int, AddrInfo>, mapAddr: map<NetAddr, int>, vRandom: seq<int>)
    ensures 0 in m && m[0].service.addr !in mapAddr ==> !EntryOk(m, mapAddr, vRandom, 0)
  {
  }

  /** The part of the invariant that `Check_` does not look at. */
  ghost predicate Untested(m: map<int, AddrInfo>, mapAddr: map<NetAddr, int>, vvTried: seq<seq<int>>,
                           vvNew: seq<set<int>>, nIdCount: int) {
    && |vvTried| == ADDRMAN_TRIED_BUCKET_COUNT && |vvNew| == ADDRMAN_NEW_BUCKET_COUNT
    && (forall b | 0 <= b < |vvTried| :: |vvTried[b]| <= ADDRMAN_TRIED_BUCKET_SIZE)
    && (forall b | 0 <= b < |vvNew| :: |vvNew[b]| <= ADDRMAN_NEW_BUCKET_SIZE)
    && (forall id | id in m :: 0 <= id < nIdCount)
    && forall a | a in mapAddr :: mapAddr[a] in m && m[mapAddr[a]].service.addr == a
  }

  lemma CountsTotal(m: map<int, AddrInfo>, nTried: int, nNew: int)
    requires CountsOk(m, nTried, nNew)
    ensures nTried + nNew == |m|
  {
    IdsSplit(m);
  }

  /** Back pointers that are right for as many ids as the list is long make it a permutation. */
  lemma BackPointers(m: map<int, AddrInfo>, mapAddr: map<NetAddr, int>, vRandom: seq<int>)
    requires |vRandom| == |m| && forall id | id in m :: EntryOk(m, mapAddr, vRandom, id)
    ensures RandomOk(m, vRandom)
  {
    var places := set id | id in m.Keys :: m[id].nRandomPos;
    PlacesOf(m, m.Keys);
    var all := UpTo(|vRandom|);
    assert places <= all;
    SameSize(places, all);
    forall i | 0 <= i < |vRandom| ensures vRandom[i] in m && m[vRandom[i]].nRandomPos == i {
      assert i in places;
    }
  }

  lemma {:induction false} PlacesOf(m: map<int, AddrInfo>, ids: set<int>)
    requires ids <= m.Keys && forall i, j | i in ids && j in ids && i != j :: m[i].nRandomPos != m[j].nRandomPos
    ensures |set id | id in ids :: m[id].nRandomPos| == |ids|
  {
    SomeMember(ids);
    if ids != {} {
      var n :| n in ids;
      PlacesOf(m, ids - {n});
      assert (set id | id in ids :: m[id].nRandomPos) ==
             (set id | id in ids - {n} :: m[id].nRandomPos) + {m[n].nRandomPos};
    }
  }

  ghost function UpTo(n: nat): (s: set<int>)
    ensures |s| == n && forall i: int :: i in s <==> 0 <= i < n
  {
    if n == 0 then {} else UpTo(n - 1) + {n - 1}
  }

  lemma SameSize(a: set<int>, b: set<int>)
    requires a <= b && |a| == |b|
    ensures a == b
  {
    assert b == a + (b - a);
  }

  ghost function Left(counts: map<int, int>, id: int): int { if id in counts then counts[id] else 0 }

  lemma NoBags()
    ensures TriedBag([]) == multiset{} && NewBag([]) == multiset{}
  {
  }

  lemma TableCounts(m: map<int, AddrInfo>, setTried: set<int>, mapNew: map<int, int>, nTried: int, nNew: int)
    requires setTried == TriedIds(m) && mapNew == CountsWithout(m, {})
    ensures CountsOk(m, nTried, nNew) <==> |setTried| == nTried && |mapNew| == nNew
  {
    assert mapNew.Keys == NewIds(m);
  }

  /** A bag grows bucket by bucket, up to the bag of the whole table. */
  lemma TriedPrefix(vvTried: seq<seq<int>>, n: nat)
    requires n < |vvTried|
    ensures TriedBag(vvTried[..n + 1]) == TriedBag(vvTried[..n]) + multiset(vvTried[n])
    ensures forall id :: TriedBag(vvTried[..n])[id] + multiset(vvTried[n])[id] <= TriedBag(vvTried)[id]
  {
    assert vvTried[..n + 1][..n] == vvTried[..n];
    assert vvTried[..n + 1][n] == vvTried[n];
    TriedPart(vvTried, n + 1);
  }

  lemma {:induction false} TriedPart(vvTried: seq<seq<int>>, n: nat)
    requires n <= |vvTried|
    ensures forall id :: TriedBag(vvTried[..n])[id] <= TriedBag(vvTried)[id]
  {
    if n < |vvTried| {
      var k := |vvTried| - 1;
      TriedPart(vvTried[..k], n);
      assert vvTried[..k][..n] == vvTried[..n];
    } else {
      assert vvTried[..n] == vvTried;
    }
  }

  lemma {:induction false} NewPrefix(vvNew: seq<set<int>>, n: nat)
    requires n < |vvNew|
    ensures NewBag(vvNew[..n + 1]) == NewBag(vvNew[..n]) + multiset(vvNew[n])
    ensures forall id :: NewBag(vvNew[..n])[id] + (if id in vvNew[n] then 1 else 0) <= NewBag(vvNew)[id]
  {
    assert vvNew[..n + 1][..n] == vvNew[..n];
    var k := |vvNew| - 1;
    if n < k {
      NewPrefix(vvNew[..k], n);
      assert vvNew[..k][..n + 1] == vvNew[..n + 1] && vvNew[..k][..n] == vvNew[..n];
    } else {
      assert vvNew[..n + 1] == vvNew;
    }
  }

  lemma SomeMember(s: set<int>)
    ensures s == {} || exists id :: id in s
  {
    assert (forall id :: id !in s) ==> s == {};
  }

  lemma BucketKnown(m: map<int, AddrInfo>, vvNew: seq<set<int>>, pending: multiset<int>, nIdCount: int, b: nat)
    requires NewOk(m, vvNew, pending) && RefsOk(m, nIdCount, {}) && b < |vvNew|
    ensures vvNew[b] <= m.Keys && forall id | id in vvNew[b] :: id >= 0
  {
    forall id | id in vvNew[b] ensures id in m && id >= 0 { InNewBucket(m, vvNew, pending, nIdCount, b, id); }
  }

  lemma Created(id: int, info: AddrInfo, m: map<int, AddrInfo>, mapAddr: map<NetAddr, int>, vRandom: seq<int>,
                vvTried: seq<seq<int>>, vvNew: seq<set<int>>, nTried: int, nNew: int)
    requires RandomOk(m, vRandom) && AddrOk(m, mapAddr) && TriedOk(m, vvTried) && NewOk(m, vvNew, multiset{})
    requires RefsOk(m, id, {}) && CountsOk(m, nTried, nNew) && id >= 0
    requires info.service.addr !in mapAddr && info.nRandomPos == |vRandom| && info.nRefCount == 0 && !info.fInTried
    ensures id !in m && RandomOk(m[id := info], vRandom + [id]) &&
            AddrOk(m[id := info], mapAddr[info.service.addr := id])
    ensures TriedOk(m[id := info], vvTried) && NewOk(m[id := info], vvNew, multiset{})
    ensures RefsOk(m[id := info], id + 1, {id}) && CountsOk(m[id := info], nTried, nNew + 1)
  {
    assert id !in m;
    assert TriedIds(m[id := info]) == TriedIds(m);
    assert NewIds(m[id := info]) == NewIds(m) + {id};
    assert forall k :: Refs(m[id := info], k) == Refs(m, k) && Mark(m[id := info], k) == Mark(m, k);
  }

  lemma PosInRange(m: map<int, AddrInfo>, vRandom: seq<int>, id: int)
    requires RandomOk(m, vRandom) && id in m
    ensures 0 <= m[id].nRandomPos < |vRandom| && vRandom[m[id].nRandomPos] == id
  {
  }

  lemma IdsWithout(m: map<int, AddrInfo>, id: int)
    ensures TriedIds(m - {id}) == TriedIds(m) - {id} && NewIds(m - {id}) == NewIds(m) - {id}
  {
  }

  lemma Forgotten(m: map<int, AddrInfo>, id: int, vvTried: seq<seq<int>>, vvNew: seq<set<int>>, b: nat,
                  pending: multiset<int>, nIdCount: int, nTried: int, nNew: int)
    requires id in m && !m[id].fInTried && m[id].nRefCount == 1 && b < |vvNew| && id in vvNew[b] && id !in pending
    requires TriedIds(m - {id}) == TriedIds(m) - {id} && NewIds(m - {id}) == NewIds(m) - {id}
    requires TriedOk(m, vvTried) && NewOk(m, vvNew, pending) && CountsOk(m, nTried, nNew) && RefsOk(m, nIdCount, {})
    ensures RefsOk(m - {id}, nIdCount, {})
    ensures TriedOk(m - {id}, vvTried) && NewOk(m - {id}, vvNew[b := vvNew[b] - {id}], pending) &&
            CountsOk(m - {id}, nTried, nNew - 1)
  {
    assert forall k :: Mark(m - {id}, k) == Mark(m, k) && Refs(m - {id}, k) == Refs(m, k) - if k == id then 1 else 0;
    NewStep(m, m - {id}, vvNew, b, vvNew[b] - {id}, pending, pending);
    assert id !in TriedIds(m) && id in NewIds(m);
    assert TriedIds(m) - {id} == TriedIds(m);
  }

  lemma Dropped(m: map<int, AddrInfo>, id: int, info: AddrInfo, vvTried: seq<seq<int>>, vvNew: seq<set<int>>, b: nat,
                  pending: multiset<int>, nIdCount: int, nTried: int, nNew: int)
    requires id in m && !m[id].fInTried && b < |vvNew| && id in vvNew[b] &&
             info == m[id].(nRefCount := m[id].nRefCount - 1)
    requires TriedOk(m, vvTried) && NewOk(m, vvNew, pending) && CountsOk(m, nTried, nNew) && RefsOk(m, nIdCount, {}) &&
             info.nRefCount > 0
    ensures RefsOk(m[id := info], nIdCount, {})
    ensures TriedOk(m[id := info], vvTried) && NewOk(m[id := info], vvNew[b := vvNew[b] - {id}], pending) &&
            CountsOk(m[id := info], nTried, nNew)
  {
    assert forall k ::
             Mark(m[id := info], k) == Mark(m, k) && Refs(m[id := info], k) == Refs(m, k) - if k == id then 1 else 0;
    NewStep(m, m[id := info], vvNew, b, vvNew[b] - {id}, pending, pending);
    assert TriedIds(m[id := info]) == TriedIds(m) && NewIds(m[id := info]) == NewIds(m);
  }

  lemma {:induction false} EmptyBags(vvTried: seq<seq<int>>, vvNew: seq<set<int>>)
    requires forall b | 0 <= b < |vvTried| :: vvTried[b] == []
    requires forall b | 0 <= b < |vvNew| :: vvNew[b] == {}
    ensures TriedBag(vvTried) == multiset{} && NewBag(vvNew) == multiset{}
    decreases |vvTried| + |vvNew|
  {
    if vvTried != [] { EmptyBags(vvTried[..|vvTried| - 1], vvNew); }
    if vvNew != [] { EmptyBags(vvTried, vvNew[..|vvNew| - 1]); }
  }

  lemma Fits<T>(s: set<T>, bag: multiset<T>)
    requires forall x | x in s :: bag[x] > 0
    ensures |s| <= |bag|
  {
    assert bag == multiset(s) + (bag - multiset(s));
  }

  lemma {:induction false} TriedBagSize(vvTried: seq<seq<int>>)
    requires forall b | 0 <= b < |vvTried| :: |vvTried[b]| <= 64
    ensures |TriedBag(vvTried)| <= 64 * |vvTried|
  {
    if vvTried != [] { TriedBagSize(vvTried[..|vvTried| - 1]); }
  }

  lemma {:induction false} NewBagSize(vvNew: seq<set<int>>)
    requires forall b | 0 <= b < |vvNew| :: |vvNew[b]| <= 64
    ensures |NewBag(vvNew)| <= 64 * |vvNew|
  {
    if vvNew != [] { NewBagSize(vvNew[..|vvNew| - 1]); }
  }

  /** What the buckets have room for bounds what is known: 64 buckets of 64 tried entries, 256 buckets
      of 64 references to new ones. */
  lemma Capacity(mapInfo: map<int, AddrInfo>, vvTried: seq<seq<int>>, vvNew: seq<set<int>>, nIdCount: int,
                 nTried: int, nNew: int)
    requires TriedOk(mapInfo, vvTried) && NewOk(mapInfo, vvNew, multiset{}) && RefsOk(mapInfo, nIdCount, {})
    requires CountsOk(mapInfo, nTried, nNew)
    ensures nTried <= 4096 && nNew <= 16_384
  {
    hide TriedBag, NewBag;
    TriedBagSize(vvTried);
    NewBagSize(vvNew);
    forall id | id in TriedIds(mapInfo) ensures TriedBag(vvTried)[id] > 0 { assert Mark(mapInfo, id) == 1; }
    Fits(TriedIds(mapInfo), TriedBag(vvTried));
    forall id | id in NewIds(mapInfo) ensures NewBag(vvNew)[id] > 0 { assert Refs(mapInfo, id) > 0; }
    Fits(NewIds(mapInfo), NewBag(vvNew));
  }
}
