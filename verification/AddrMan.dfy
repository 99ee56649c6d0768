/** `CAddrMan`: six containers over the known addresses that must agree with each other, and
    operations that change several of them at once.  Bucket hashes, random choices, clock
    readings and the judgement of `IsTerrible` are arbitrary. */
module AddrMan {
  import opened Wrappers
  import opened AddrTables

  /** What `Add_` takes over from an address it knows already: services add up, and the time moves
      only forward, by more than an hour, as long as the new one fits its field. */
  method Refresh(known: AddrInfo, addr: Address, nTimePenalty: int, nNow: int) returns (info: AddrInfo)
    ensures info == addr.Updated(known, nTimePenalty, nNow)
    ensures known.SamePlace(info) && info == known.(nServices := known.nServices + addr.nServices, nTime := info.nTime)
    ensures addr.nTime == 0 ==> info.nTime == known.nTime
    ensures addr.nTime - nTimePenalty < 0x1_0000_0000 ==> info.nTime >= known.nTime
    ensures addr.nTime - nTimePenalty < 0x1_0000_0000 && info.nTime != known.nTime && known.nTime != 0 ==>
      info.nTime == addr.nTime - nTimePenalty > known.nTime + 60 * 60
    ensures 0 <= addr.nTime - nTimePenalty < 0x1_0000_0000 && addr.nTime != 0 && known.nTime == 0 ==>
      info.nTime == addr.nTime - nTimePenalty
    ensures var gap := addr.nTime - nTimePenalty - known.nTime;
            0 <= addr.nTime - nTimePenalty < 0x1_0000_0000 && addr.nTime != 0 && known.nTime > 0 ==>
              (info.nTime != known.nTime <==> gap > 86_400 || (gap > 3600 && nNow < addr.nTime + 86_400))
  {
    info := known;
    var fCurrentlyOnline := nNow - addr.nTime < 24 * 60 * 60;
    var nUpdateInterval := if fCurrentlyOnline then 60 * 60 else 24 * 60 * 60;
    if addr.nTime != 0 && (info.nTime == 0 || info.nTime < addr.nTime - nUpdateInterval - nTimePenalty) {
      info := info.(nTime := ToUint(Max(0, addr.nTime - nTimePenalty)));
    }
    info := info.(nServices := info.nServices + addr.nServices);
  }

  /** The draw that makes every further reference half as likely; an entry without one is never refused. */
  method Refused(nRefCount: nat, nRand: nat) returns (refused: bool)
    ensures refused <==> nRand % Pow2(nRefCount) != 0
    ensures nRefCount == 0 ==> !refused
    ensures nRefCount == 1 ==> refused == (nRand % 2 != 0)
    ensures nRefCount == 2 ==> refused == (nRand % 4 != 0)
    ensures nRefCount == 3 ==> refused == (nRand % 8 != 0)
  {
    var nFactor := 1;
    for i := 0 to nRefCount
      invariant nFactor == Pow2(i)
    {
      nFactor := nFactor * 2;
    }
    return nFactor > 1 && nRand % nFactor != 0;
  }

  /** The second half of `ShrinkNew`: the oldest of the entries at the sampled positions. */
  method OldestOf(mapInfo: map<int, AddrInfo>, vNew: set<int>, n: seq<nat>)
    returns (nOldest: int, ghost sampled: set<int>)
    requires vNew <= mapInfo.Keys && forall id | id in vNew :: id >= 0
    requires |n| == 4 && forall i | 0 <= i < 4 :: n[i] < |vNew|
    ensures nOldest in vNew && nOldest in sampled && sampled <= vNew && |sampled| == |Places(n)|
    ensures forall id | id in sampled :: mapInfo[nOldest].nTime <= mapInfo[id].nTime
  {
    hide Below, Places;
    sampled, nOldest := {}, -1;
    var nI, rest := 0, vNew;
    BelowNext(Places(n), 0);
    while rest != {}
      invariant rest <= vNew && nI == |vNew| - |rest| && sampled <= vNew - rest && |sampled| == |Below(Places(n), nI)|
      invariant if sampled == {} then nOldest == -1 else nOldest in sampled
      invariant forall id | id in sampled :: mapInfo[nOldest].nTime <= mapInfo[id].nTime
    {
      SomeMember(rest);
      var it :| it in rest;
      BelowNext(Places(n), nI);
      InPlaces(n, nI);
      if nI == n[0] || nI == n[1] || nI == n[2] || nI == n[3] {
        if nOldest == -1 || mapInfo[it].nTime < mapInfo[nOldest].nTime {
          nOldest := it;
        }
        sampled := sampled + {it};
      }
      nI := nI + 1;
      rest := rest - {it};
    }
    AllBelow(n, nI);
  }

  /** The sampled positions that the loop of `ShrinkNew` has passed. */
  ghost function Below(places: set<nat>, nI: nat): set<nat> { set p | p in places && p < nI }

  lemma BelowNext(places: set<nat>, nI: nat)
    ensures |Below(places, nI + 1)| == |Below(places, nI)| + if nI in places then 1 else 0
    ensures |Below(places, 0)| == 0
  {
    assert Below(places, 0) == {};
    assert Below(places, nI + 1) == if nI in places then Below(places, nI) + {nI} else Below(places, nI);
  }

  ghost function Places(n: seq<nat>): set<nat>
    requires |n| == 4
  {
    {n[0], n[1], n[2], n[3]}
  }

  lemma InPlaces(n: seq<nat>, nI: nat)
    requires |n| == 4
    ensures nI in Places(n) <==> nI == n[0] || nI == n[1] || nI == n[2] || nI == n[3]
  {
  }

  lemma AllBelow(n: seq<nat>, nI: nat)
    requires |n| == 4 && forall i | 0 <= i < 4 :: n[i] < nI
    ensures Below(Places(n), nI) == Places(n) && |Places(n)| > 0
  {
  }

  lemma OneMoreTried(vTried: seq<int>, i: nat)
    requires i < |vTried|
    ensures multiset(vTried[..i + 1]) == multiset(vTried[..i]) + multiset{vTried[i]}
    ensures multiset(vTried[..i + 1])[vTried[i]] <= multiset(vTried)[vTried[i]]
  {
    assert vTried[..i + 1] == vTried[..i] + [vTried[i]] && vTried == vTried[..i + 1] + vTried[i + 1..];
  }

  class CAddrMan {
    var nIdCount: nat
    var mapInfo: map<int, AddrInfo>
    var mapAddr: map<NetAddr, int>
    var vRandom: seq<int>
    var nTried: int
    var vvTried: seq<seq<int>>
    var nNew: int
    var vvNew: seq<set<int>>

    /** The whole invariant of `Check_` apart from the times of the entries. */
    ghost predicate Structure(pending: multiset<int>, exempt: set<int>)
      reads this
    {
      && RandomOk(mapInfo, vRandom) && AddrOk(mapInfo, mapAddr) && TriedOk(mapInfo, vvTried)
      && NewOk(mapInfo, vvNew, pending) && RefsOk(mapInfo, nIdCount, exempt) && CountsOk(mapInfo, nTried, nNew)
    }

    ghost predicate TimesOk()
      reads this`mapInfo
    {
      AllTimes(mapInfo)
    }

    ghost predicate Valid()
      reads this
    {
      Structure(multiset{}, {}) && TimesOk()
    }

    constructor ()
      ensures Valid() && mapInfo == map[]
    {
      nIdCount, mapInfo, mapAddr, vRandom, nTried, nNew := 0, map[], map[], [], 0, 0;
      vvTried := seq(ADDRMAN_TRIED_BUCKET_COUNT, _ => []);
      vvNew := seq(ADDRMAN_NEW_BUCKET_COUNT, _ => {});
      new;
      EmptyBags(vvTried, vvNew);
      assert TriedIds(map[]) == {} && NewIds(map[]) == {};
    }

    /** `SwapRandom`: exchanges two entries of the random list, and their back pointers. */
    method SwapRandom(nRndPos1: nat, nRndPos2: nat)
      requires RandomOk(mapInfo, vRandom) && nRndPos1 < |vRandom| && nRndPos2 < |vRandom|
      modifies this`mapInfo, this`vRandom
      ensures RandomOk(mapInfo, vRandom) && OnlyMoved(old(mapInfo), mapInfo)
      ensures vRandom == old(vRandom)[nRndPos1 := old(vRandom)[nRndPos2]][nRndPos2 := old(vRandom)[nRndPos1]]
    {
      if nRndPos1 == nRndPos2 { return; }
      var nId1, nId2 := vRandom[nRndPos1], vRandom[nRndPos2];
      assert nId1 != nId2;
      mapInfo := mapInfo[nId1 := mapInfo[nId1].(nRandomPos := nRndPos2)];
      mapInfo := mapInfo[nId2 := mapInfo[nId2].(nRandomPos := nRndPos1)];
      vRandom := vRandom[nRndPos1 := nId2];
      vRandom := vRandom[nRndPos2 := nId1];
    }

    /** The id of a known address. */
    method Find(addr: NetAddr) returns (found: Option<int>)
      requires AddrOk(mapInfo, mapAddr)
      ensures found.Some? ==>
                addr in mapAddr && found.value == mapAddr[addr] && found.value in mapInfo &&
                  mapInfo[found.value].service.addr == addr
      ensures found.None? ==> addr !in mapAddr && forall id | id in mapInfo :: mapInfo[id].service.addr != addr
    {
      if addr !in mapAddr { return None; }
      return Some(mapAddr[addr]);
    }

    /** `Create`: a new entry with no references yet. */
    method Create(addr: Service, nServices: Services, nTime: nat) returns (nId: int)
      requires Structure(multiset{}, {}) && addr.addr !in mapAddr
      modifies this`nIdCount, this`mapInfo, this`mapAddr, this`vRandom
      ensures RandomOk(mapInfo, vRandom) && AddrOk(mapInfo, mapAddr) && TriedOk(mapInfo, vvTried)
      ensures NewOk(mapInfo, vvNew, multiset{}) && RefsOk(mapInfo, nIdCount, {nId}) &&
              CountsOk(mapInfo, nTried, nNew + 1)
      ensures nId == old(nIdCount) && nId !in old(mapInfo)
      ensures mapInfo == old(mapInfo)[nId := AddrInfo(addr, nServices, nTime, 0, 0, 0, 0, false, |old(vRandom)|)]
    {
      hide RandomOk, AddrOk, TriedOk, NewOk, RefsOk, CountsOk;
      nId := nIdCount;
      Created(nId, AddrInfo(addr, nServices, nTime, 0, 0, 0, 0, false, |vRandom|), mapInfo, mapAddr, vRandom, vvTried,
        vvNew, nTried, nNew);
      nIdCount := nIdCount + 1;
      ghost var m0 := mapInfo;
      mapInfo := mapInfo[nId := AddrInfo(addr, nServices, nTime, 0, 0, 0, 0, false, -1)];
      mapAddr := mapAddr[addr.addr := nId];
      mapInfo := mapInfo[nId := mapInfo[nId].(nRandomPos := |vRandom|)];
      vRandom := vRandom + [nId];
      assert mapInfo == m0[nId := AddrInfo(addr, nServices, nTime, 0, 0, 0, 0, false, |old(vRandom)|)];
    }

    /** One reference to `id` is given up: it leaves bucket `nUBucket`, and is forgotten when that
        was its last one. */
    method DropFromNew(id: int, nUBucket: nat, ghost pending: multiset<int>)
      requires Structure(pending, {}) && nUBucket < |vvNew| && id in vvNew[nUBucket] && id !in pending
      modifies this`mapInfo, this`mapAddr, this`vRandom, this`nNew, this`vvNew
      ensures Structure(pending, {})
      ensures vvNew == old(vvNew)[nUBucket := old(vvNew[nUBucket]) - {id}]
      ensures id in old(mapInfo) && !old(mapInfo)[id].fInTried
      ensures GivenUp(old(mapInfo), mapInfo, id)
    {
      hide RandomOk, AddrOk, TriedOk, NewOk, RefsOk, CountsOk, GivenUp, OnlyMoved;
      InNewBucket(mapInfo, vvNew, pending, nIdCount, nUBucket, id);
      ghost var m0 := mapInfo;
      if mapInfo[id].nRefCount - 1 == 0 {
        ForgetEntry(id, nUBucket, pending);
      } else {
        var info := mapInfo[id].(nRefCount := mapInfo[id].nRefCount - 1);
        ReplaceKeeps(mapInfo, id, info, mapAddr, vRandom);
        mapInfo := mapInfo[id := info];
        GivenUpOne(m0, id, info);
        Dropped(m0, id, info, vvTried, vvNew, nUBucket, pending, nIdCount, nTried, nNew);
      }
      vvNew := vvNew[nUBucket := vvNew[nUBucket] - {id}];
    }

    /** The last reference to `id` is gone: so is the entry, from every container but its bucket. */
    method ForgetEntry(id: int, nUBucket: nat, ghost pending: multiset<int>)
      requires Structure(pending, {}) && nUBucket < |vvNew| && id in vvNew[nUBucket] && id !in pending
      requires id in mapInfo && !mapInfo[id].fInTried && mapInfo[id].nRefCount == 1
      modifies this`mapInfo, this`mapAddr, this`vRandom, this`nNew
      ensures RandomOk(mapInfo, vRandom) && AddrOk(mapInfo, mapAddr) && TriedOk(mapInfo, vvTried)
      ensures NewOk(mapInfo, vvNew[nUBucket := vvNew[nUBucket] - {id}], pending)
      ensures RefsOk(mapInfo, nIdCount, {}) && CountsOk(mapInfo, nTried, nNew)
      ensures GivenUp(old(mapInfo), mapInfo, id)
    {
      hide RandomOk, AddrOk, TriedOk, NewOk, RefsOk, CountsOk, GivenUp, OnlyMoved, TriedIds, NewIds;
      ghost var m0 := mapInfo;
      PosInRange(mapInfo, vRandom, id);
      var last := |vRandom| - 1;
      SwapRandom(mapInfo[id].nRandomPos, last);
      MovedKeeps(m0, mapInfo, mapAddr, vvTried, vvNew, pending, {}, nIdCount, nTried, nNew);
      MovedEntry(m0, mapInfo, id);
      ghost var m1 := mapInfo;
      ForgetLast(mapInfo, id, mapAddr, vRandom);
      vRandom := vRandom[..last];
      mapAddr := mapAddr - {mapInfo[id].service.addr};
      mapInfo := mapInfo - {id};
      nNew := nNew - 1;
      GivenUpLast(m0, m1, id);
      IdsWithout(m1, id);
      Forgotten(m1, id, vvTried, vvNew, nUBucket, pending, nIdCount, nTried, nNew + 1);
    }

    /** `ShrinkNew`: a full bucket loses a terrible entry if it has one, and otherwise the oldest of
        the entries at four sampled positions. */
    method ShrinkNew(nUBucket: nat, terrible: set<int>, n: seq<nat>, ghost pending: multiset<int>)
      returns (r: int, evicted: int, ghost sampled: set<int>)
      requires Structure(pending, {}) && nUBucket < |vvNew| && vvNew[nUBucket] != {}
      requires forall id | id in vvNew[nUBucket] :: id !in pending
      requires |n| == 4 && forall i | 0 <= i < 4 :: n[i] < |vvNew[nUBucket]|
      modifies this`mapInfo, this`mapAddr, this`vRandom, this`nNew, this`vvNew
      ensures Structure(pending, {}) && evicted in old(vvNew[nUBucket]) && GivenUp(old(mapInfo), mapInfo, evicted)
      ensures vvNew == old(vvNew)[nUBucket := old(vvNew[nUBucket]) - {evicted}]
      ensures r == if old(vvNew[nUBucket]) !! terrible then 1 else 0
      ensures r == 0 ==> evicted in terrible
      ensures r == 1 ==> evicted in sampled && sampled <= old(vvNew[nUBucket]) && sampled <= old(mapInfo).Keys
      ensures r == 1 ==> |sampled| == |Places(n)|
      ensures r == 1 ==> forall id | id in sampled :: old(mapInfo)[evicted].nTime <= old(mapInfo)[id].nTime
    {
      hide RandomOk, AddrOk, TriedOk, NewOk, RefsOk, CountsOk, GivenUp;
      var vNew := vvNew[nUBucket];
      BucketKnown(mapInfo, vvNew, pending, nIdCount, nUBucket);
      sampled := {};
      evicted := -1;
      var rest := vNew;
      while rest != {}
        invariant rest <= vNew && (vNew - rest) !! terrible
        modifies {}
      {
        SomeMember(rest);
        var it :| it in rest;
        if it in terrible {
          evicted := it;
          break;
        }
        rest := rest - {it};
      }
      if rest != {} {
        DropFromNew(evicted, nUBucket, pending);
        return 0, evicted, {};
      }
      var nOldest;
      nOldest, sampled := OldestOf(mapInfo, vNew, n);
      DropFromNew(nOldest, nUBucket, pending);
      return 1, nOldest, sampled;
    }

    /** `SelectTried`: moves the entries drawn to the front of a tried bucket and judges which of them
        is the oldest.  That entry stands at the place of its turn, while the position drawn for it is
        returned: they are the same only when it was drawn from its own place. */
    method SelectTried(nKBucket: nat, draws: seq<nat>) returns (nOldestPos: nat, ghost turn: nat)
      requires TriedOk(mapInfo, vvTried) && nKBucket < |vvTried| && vvTried[nKBucket] != [] &&
               forall id | id in mapInfo :: id >= 0
      requires |draws| == ADDRMAN_TRIED_ENTRIES_INSPECT_ON_EVICT
      requires forall i | 0 <= i < Min(|draws|, |vvTried[nKBucket]|) :: i <= draws[i] < |vvTried[nKBucket]|
      modifies this`vvTried
      ensures TriedOk(mapInfo, vvTried)
      ensures var k := Min(|draws|, |old(vvTried[nKBucket])|);
        && vvTried == old(vvTried)[nKBucket := Exchanged(old(vvTried[nKBucket]), draws, k)]
        && multiset(vvTried[nKBucket]) == multiset(old(vvTried[nKBucket]))
        && Judged(mapInfo, vvTried[nKBucket], k, turn)
        && nOldestPos == draws[turn] < |vvTried[nKBucket]|
      ensures vvTried[nKBucket][nOldestPos] == vvTried[nKBucket][turn] <==> draws[turn] == turn
    {
      hide TriedOk, Judged, Exchanged;
      ghost var v := vvTried[nKBucket];
      var nOldest, pos: int, i := -1, -1, 0;
      turn := 0;
      NoneDrawn(v, draws);
      while i < ADDRMAN_TRIED_ENTRIES_INSPECT_ON_EVICT && i < |vvTried[nKBucket]|
        invariant 0 <= i <= Min(|draws|, |v|) && vvTried == old(vvTried)[nKBucket := Exchanged(v, draws, i)]
        invariant multiset(vvTried[nKBucket]) == multiset(v) && TriedOk(mapInfo, vvTried)
        invariant if i == 0 then nOldest == -1 else turn < i && nOldest == vvTried[nKBucket][turn] && pos == draws[turn]
        invariant i > 0 ==> Judged(mapInfo, vvTried[nKBucket], i, turn)
      {
        var nPos := draws[i];
        var vTried := vvTried[nKBucket];
        ghost var w := vTried;
        var nTemp := vTried[nPos];
        InTriedBucket(mapInfo, vvTried, nKBucket, nTemp);
        if i > 0 { InTriedBucket(mapInfo, vvTried, nKBucket, nOldest); }
        ExchangedNext(v, draws, i);
        vTried := vTried[nPos := vTried[i]];
        vTried := vTried[i := nTemp];
        Shuffled(mapInfo, vvTried, nKBucket, vTried);
        vvTried := vvTried[nKBucket := vTried];
        if i == 0 { JudgedFirst(mapInfo, vTried); } else { JudgedNext(mapInfo, w, vTried, i, turn); }
        if nOldest == -1 || mapInfo[nTemp].nLastSuccess < mapInfo[nOldest].nLastSuccess {
          nOldest := nTemp;
          pos := nPos;
          turn := i;
        }
        i := i + 1;
      }
      if turn < pos { DistinctInTried(mapInfo, vvTried, nKBucket, turn, pos); }
      return pos, turn;
    }

    /** `MakeTried`: `nId` leaves every new bucket and enters the tried table.  When its tried bucket
        is full, one entry there goes back to the new table with a single reference. */
    method MakeTried(nId: int, nOrigin: nat, nKBucket: nat, nUBucket: nat, draws: seq<nat>)
      returns (ghost evicted: Option<int>, ghost turn: nat)
      requires Structure(multiset{}, {}) && nId in mapInfo && nOrigin < |vvNew| && nId in vvNew[nOrigin]
      requires nKBucket < |vvTried| && nUBucket < |vvNew|
      requires |draws| == ADDRMAN_TRIED_ENTRIES_INSPECT_ON_EVICT &&
               forall i | 0 <= i < |draws| :: i <= draws[i] < ADDRMAN_TRIED_BUCKET_SIZE
      modifies this`mapInfo, this`vvNew, this`vvTried, this`nTried, this`nNew
      ensures |vvTried| == |old(vvTried)| && |vvNew| == |old(vvNew)|
      ensures Structure(multiset{}, {}) && Promoted(old(mapInfo), mapInfo, nId, evicted)
      ensures evicted.None? <==> |old(vvTried)[nKBucket]| < 64
      ensures nId in vvTried[nKBucket]
      ensures evicted.Some? ==>
                evicted.value in old(vvTried)[nKBucket] && evicted.value in vvNew[nUBucket] + vvNew[nOrigin]
      ensures evicted.Some? ==> Evicted(old(mapInfo), old(vvTried[nKBucket]), draws, turn, evicted.value)
    {
      hide RandomOk, AddrOk, TriedOk, NewOk, RefsOk, CountsOk, Promoted, Evicted;
      turn := 0;
      TriedSizes(mapInfo, vvTried);
      InNewBucket(mapInfo, vvNew, multiset{}, nIdCount, nOrigin, nId);
      LeaveNew(nId, nOrigin);
      nNew := nNew - 1;
      ghost var m0 := old(mapInfo);
      ghost var m1 := mapInfo;

      if |vvTried[nKBucket]| < ADDRMAN_TRIED_BUCKET_SIZE {
        var info := mapInfo[nId].(fInTried := true);
        ReplaceKeeps(mapInfo, nId, info, mapAddr, vRandom);
        EnterTried(mapInfo, nId, info, vvTried, nKBucket, vvNew, nIdCount, nTried, nNew + 1);
        vvTried := vvTried[nKBucket := vvTried[nKBucket] + [nId]];
        assert vvTried[nKBucket][|vvTried[nKBucket]| - 1] == nId;
        nTried := nTried + 1;
        mapInfo := mapInfo[nId := info];
        PromotedAlone(m0, m1, nId);
        return None, turn;
      }

      var nOld;
      nOld, turn := SwapOut(nId, nOrigin, nKBucket, nUBucket, draws);
      PromotedFor(m0, m1, nId, nOld);
      EvictedSame(m0, nId, m1[nId], old(vvTried[nKBucket]), draws, turn, nOld);
      return Some(nOld), turn;
    }

    /** The eviction of `MakeTried`: `nId` takes the place of an entry of its full tried bucket, and
        that entry goes to its own new bucket, or to the one `nId` has just left. */
    method SwapOut(nId: int, nOrigin: nat, nKBucket: nat, nUBucket: nat, draws: seq<nat>)
      returns (nOld: int, ghost turn: nat)
      requires RandomOk(mapInfo, vRandom) && AddrOk(mapInfo, mapAddr) && TriedOk(mapInfo, vvTried)
      requires NewOk(mapInfo, vvNew, multiset{}) && RefsOk(mapInfo, nIdCount, {nId}) &&
               CountsOk(mapInfo, nTried, nNew + 1)
      requires nId in mapInfo && !mapInfo[nId].fInTried && mapInfo[nId].nRefCount == 0
      requires nOrigin < |vvNew| && |vvNew[nOrigin]| < ADDRMAN_NEW_BUCKET_SIZE
      requires nKBucket < |vvTried| && |vvTried[nKBucket]| == ADDRMAN_TRIED_BUCKET_SIZE && nUBucket < |vvNew|
      requires |draws| == ADDRMAN_TRIED_ENTRIES_INSPECT_ON_EVICT &&
               forall i | 0 <= i < |draws| :: i <= draws[i] < ADDRMAN_TRIED_BUCKET_SIZE
      modifies this`mapInfo, this`vvNew, this`vvTried, this`nNew
      ensures Structure(multiset{}, {})
      ensures nOld in old(mapInfo) && old(mapInfo)[nOld].fInTried && nOld in old(vvTried)[nKBucket]
      ensures var (m, was) := (old(mapInfo), old(mapInfo)[nOld]);
              mapInfo == m[nOld := was.(fInTried := false, nRefCount := 1)][nId := m[nId].(fInTried := true)]
      ensures |vvTried| == |old(vvTried)| && |vvNew| == |old(vvNew)| && nId in vvTried[nKBucket]
      ensures nOld in vvNew[nUBucket] + vvNew[nOrigin]
      ensures Evicted(old(mapInfo), old(vvTried[nKBucket]), draws, turn, nOld)
    {
      hide RandomOk, AddrOk, TriedOk, NewOk, RefsOk, CountsOk, Judged;
      ghost var m1 := mapInfo;
      IdsNonnegative(mapInfo, nIdCount, nId);
      var nPos;
      nPos, turn := SelectTried(nKBucket, draws);
      nOld := vvTried[nKBucket][nPos];
      InTriedBucket(mapInfo, vvTried, nKBucket, nOld);
      assert nOld in multiset(old(vvTried)[nKBucket]);
      var infoOld, info := mapInfo[nOld].(fInTried := false, nRefCount := 1), mapInfo[nId].(fInTried := true);
      ReplaceKeeps(mapInfo, nOld, infoOld, mapAddr, vRandom);
      ReplaceKeeps(mapInfo[nOld := infoOld], nId, info, mapAddr, vRandom);
      Exchange(mapInfo, nId, info, nOld, infoOld, vvTried, nKBucket, nPos, vvNew, nIdCount, nTried, nNew + 1);
      mapInfo := mapInfo[nOld := infoOld];
      var home := if |vvNew[nUBucket]| < ADDRMAN_NEW_BUCKET_SIZE then nUBucket else nOrigin;
      ExchangeNew(m1, nId, info, nOld, infoOld, vvNew, home, nIdCount);
      vvNew := vvNew[home := vvNew[home] + {nOld}];
      nNew := nNew + 1;
      vvTried := vvTried[nKBucket := vvTried[nKBucket][nPos := nId]];
      assert vvTried[nKBucket][nPos] == nId;
      mapInfo := mapInfo[nId := info];
    }

    /** The search of `Good_` for a new bucket holding `nId`, starting at a random one. */
    method FindOrigin(nId: int, nRnd: nat) returns (nUBucket: int)
      requires |vvNew| == ADDRMAN_NEW_BUCKET_COUNT && nRnd < |vvNew|
      ensures nUBucket == -1 || (0 <= nUBucket < |vvNew| && nId in vvNew[nUBucket])
      ensures nUBucket == -1 ==> forall b | 0 <= b < |vvNew| :: nId !in vvNew[b]
    {
      for n := 0 to |vvNew|
        invariant forall b | 0 <= b < |vvNew| :: (if b >= nRnd then b - nRnd else b + |vvNew| - nRnd) < n ==>
                    nId !in vvNew[b]
      {
        var nB := (n + nRnd) % ADDRMAN_NEW_BUCKET_COUNT;
        if nId in vvNew[nB] { return nB; }
      }
      return -1;
    }

    /** Changes the data of one entry, but not its place in the containers. */
    method Touch(id: int, info: AddrInfo)
      requires Structure(multiset{}, {}) && id in mapInfo && mapInfo[id].SamePlace(info)
      modifies this`mapInfo
      ensures Structure(multiset{}, {}) && mapInfo == old(mapInfo)[id := info]
    {
      DataKeeps(mapInfo, id, info, mapAddr, vRandom, vvTried, vvNew, multiset{}, {}, nIdCount, nTried, nNew);
      mapInfo := mapInfo[id := info];
    }

    /** `Good_`: the structure always survives.  The times of the entries survive exactly when the
        service is not a known one or `nTime` is positive: nothing stops a caller from passing zero. */
    method Good_(addr: Service, nTime: int, nRnd: nat, nKBucket: nat, nUBucket: nat, draws: seq<nat>)
      returns (ghost evicted: Option<int>)
      requires Structure(multiset{}, {}) && nRnd < ADDRMAN_NEW_BUCKET_COUNT
      requires nKBucket < ADDRMAN_TRIED_BUCKET_COUNT && nUBucket < ADDRMAN_NEW_BUCKET_COUNT
      requires |draws| == ADDRMAN_TRIED_ENTRIES_INSPECT_ON_EVICT &&
               forall i | 0 <= i < |draws| :: i <= draws[i] < ADDRMAN_TRIED_BUCKET_SIZE
      modifies this`mapInfo, this`vvNew, this`vvTried, this`nTried, this`nNew
      ensures Structure(multiset{}, {})
      ensures !old(Knows(addr)) ==> mapInfo == old(mapInfo) && vvNew == old(vvNew) && vvTried == old(vvTried)
      ensures old(Knows(addr)) ==>
        var id, m := old(mapAddr)[addr.addr], old(mapInfo);
        var seen := m[id].(nLastSuccess := nTime, nLastTry := nTime, nTime := ToUint(nTime), nAttempts := 0);
        if m[id].fInTried then mapInfo == m[id := seen] else Promoted(m[id := seen], mapInfo, id, evicted)
      ensures old(TimesOk()) ==> (TimesOk() <==> nTime > 0 || !old(Knows(addr)))
    {
      hide RandomOk, AddrOk, TriedOk, NewOk, RefsOk, CountsOk, Promoted, AllTimes;
      evicted := None;
      var found := Find(addr.addr);
      AddrFound(mapInfo, mapAddr, addr.addr);
      if found.None? { return; }
      var nId := found.value;
      if mapInfo[nId].service != addr { return; }
      ghost var m := mapInfo;
      var seen := mapInfo[nId].(nLastSuccess := nTime, nLastTry := nTime, nTime := ToUint(nTime), nAttempts := 0);
      Touch(nId, seen);
      if mapInfo[nId].fInTried {
        SeenTimes(m, nId, seen, mapInfo, None, nTime);
        return;
      }
      NewSizes(mapInfo, vvNew, multiset{});
      TriedSizes(mapInfo, vvTried);
      var nB := FindOrigin(nId, nRnd);
      if nB == -1 {
        HasBucket(mapInfo, vvNew, nIdCount, nId);
        assert false;
      }
      ghost var turn;
      evicted, turn := MakeTried(nId, nB, nKBucket, nUBucket, draws);
      SeenTimes(m, nId, seen, mapInfo, evicted, nTime);
    }

    ghost predicate Knows(addr: Service)
      reads this`mapInfo, this`mapAddr
    {
      addr.addr in mapAddr && mapAddr[addr.addr] in mapInfo && mapInfo[mapAddr[addr.addr]].service == addr
    }

    /** `Attempt_`: the times survive exactly when the service is not known or `nTime` is not negative. */
    method Attempt_(addr: Service, nTime: int)
      requires Structure(multiset{}, {})
      modifies this`mapInfo
      ensures Structure(multiset{}, {})
      ensures if old(Knows(addr)) then
          var id, m := old(mapAddr)[addr.addr], old(mapInfo);
          mapInfo == m[id := m[id].(nLastTry := nTime, nAttempts := m[id].nAttempts + 1)]
        else mapInfo == old(mapInfo)
      ensures old(TimesOk()) ==> (TimesOk() <==> nTime >= 0 || !old(Knows(addr)))
    {
      hide RandomOk, AddrOk, TriedOk, NewOk, RefsOk, CountsOk;
      var found := Find(addr.addr);
      AddrFound(mapInfo, mapAddr, addr.addr);
      if found.None? { return; }
      var nId := found.value;
      if mapInfo[nId].service != addr { return; }
      Touch(nId, mapInfo[nId].(nLastTry := nTime, nAttempts := mapInfo[nId].nAttempts + 1));
      assert mapInfo[nId].TimesOk() <==>
               nTime >= 0 && old(mapInfo)[nId].nLastSuccess >= 0 &&
                 (old(mapInfo)[nId].fInTried ==> old(mapInfo)[nId].nLastSuccess != 0);
    }

    /** `Connected_`: moves the time of a known service forward, at most every twenty minutes. */
    method Connected_(addr: Service, nTime: int)
      requires Valid()
      modifies this`mapInfo
      ensures Valid()
      ensures if old(Knows(addr)) && nTime - old(mapInfo)[old(mapAddr)[addr.addr]].nTime > 20 * 60 then
          var id, m := old(mapAddr)[addr.addr], old(mapInfo);
          mapInfo == m[id := m[id].(nTime := ToUint(nTime))]
        else mapInfo == old(mapInfo)
    {
      hide RandomOk, AddrOk, TriedOk, NewOk, RefsOk, CountsOk;
      var found := Find(addr.addr);
      AddrFound(mapInfo, mapAddr, addr.addr);
      if found.None? { return; }
      var nId := found.value;
      if mapInfo[nId].service != addr { return; }
      if nTime - mapInfo[nId].nTime > 20 * 60 {
        Touch(nId, mapInfo[nId].(nTime := ToUint(nTime)));
      }
    }

    /** The last part of `Add_`: one more reference to `nId`, in `nUBucket`. */
    method Insert(nId: int, nUBucket: nat, terrible: set<int>, n: seq<nat>)
      returns (inserted: bool, evicted: Option<int>)
      requires RandomOk(mapInfo, vRandom) && AddrOk(mapInfo, mapAddr) && TriedOk(mapInfo, vvTried)
      requires NewOk(mapInfo, vvNew, multiset{}) && RefsOk(mapInfo, nIdCount, {nId}) && CountsOk(mapInfo, nTried, nNew)
      requires nId in mapInfo && !mapInfo[nId].fInTried && 0 <= mapInfo[nId].nRefCount < ADDRMAN_NEW_BUCKETS_PER_ADDRESS
      requires nUBucket < ADDRMAN_NEW_BUCKET_COUNT && |n| == 4 &&
               forall i | 0 <= i < 4 :: n[i] < ADDRMAN_NEW_BUCKET_SIZE
      modifies this`mapInfo, this`mapAddr, this`vRandom, this`nNew, this`vvNew
      ensures Structure(multiset{}, {}) && |vvNew| == |old(vvNew)| == ADDRMAN_NEW_BUCKET_COUNT
      ensures inserted <==> nId !in old(vvNew)[nUBucket]
      ensures nId in vvNew[nUBucket]
      ensures inserted ==>
                Joined(old(mapInfo), mapInfo, nId, evicted) &&
                  (evicted.Some? <==> |old(vvNew)[nUBucket]| == 64)
      ensures evicted.Some? ==> evicted.value in old(vvNew)[nUBucket]
      ensures !inserted ==> mapInfo == old(mapInfo) && vvNew == old(vvNew) && evicted == None
    {
      hide RandomOk, AddrOk, TriedOk, NewOk, RefsOk, CountsOk, GivenUp;
      evicted := None;
      NewSizes(mapInfo, vvNew, multiset{});
      if nId in vvNew[nUBucket] {
        NotExempt(mapInfo, vvNew, nIdCount, nUBucket, nId);
        return false, None;
      }
      var info := mapInfo[nId].(nRefCount := mapInfo[nId].nRefCount + 1);
      ReplaceKeeps(mapInfo, nId, info, mapAddr, vRandom);
      OneMoreRef(mapInfo, nId, info, vvTried, vvNew, nIdCount, nTried, nNew);
      mapInfo := mapInfo[nId := info];
      if |vvNew[nUBucket]| == ADDRMAN_NEW_BUCKET_SIZE {
        var r, e;
        ghost var sampled;
        r, e, sampled := ShrinkNew(nUBucket, terrible, n, multiset{nId});
        evicted := Some(e);
      }
      Settle(mapInfo, vvNew, nUBucket, nId);
      vvNew := vvNew[nUBucket := vvNew[nUBucket] + {nId}];
      return true, evicted;
    }

    /** The branch of `Add_` for an address that has an entry: says whether it gets another reference. */
    method Renew(nId: int, addr: Address, nTimePenalty: int, nNow: int, nRand: nat) returns (more: bool)
      requires Valid() && nId in mapInfo
      modifies this`mapInfo
      ensures Valid()
      ensures mapInfo == old(mapInfo)[nId := addr.Updated(old(mapInfo)[nId], nTimePenalty, nNow)]
      ensures mapInfo[nId].nRefCount >= 0
      ensures more <==> addr.Welcome(mapInfo[nId]) && nRand % Pow2(mapInfo[nId].nRefCount) == 0
      ensures more <==> addr.nTime > mapInfo[nId].nTime && !mapInfo[nId].fInTried && mapInfo[nId].nRefCount < 4 &&
                        nRand % Pow2(mapInfo[nId].nRefCount) == 0
    {
      hide RandomOk, AddrOk, TriedOk, NewOk, RefsOk, CountsOk, AllTimes, Address.Updated;
      RefsOf(mapInfo, nIdCount, nId);
      var info := Refresh(mapInfo[nId], addr, nTimePenalty, nNow);
      UpdatedTimes(mapInfo, nId, addr, nTimePenalty, nNow);
      Touch(nId, info);
      if addr.nTime == 0 || (info.nTime != 0 && addr.nTime <= info.nTime) { return false; }
      if info.fInTried { return false; }
      if info.nRefCount == ADDRMAN_NEW_BUCKETS_PER_ADDRESS { return false; }
      var refused := Refused(info.nRefCount, nRand);
      return !refused;
    }

    /** The branch of `Add_` for an address that is new. */
    method Admit(addr: Address, nTimePenalty: int) returns (nId: int)
      requires Valid() && addr.service.addr !in mapAddr
      modifies this`nIdCount, this`mapInfo, this`mapAddr, this`vRandom, this`nNew
      ensures RandomOk(mapInfo, vRandom) && AddrOk(mapInfo, mapAddr) && TriedOk(mapInfo, vvTried)
      ensures NewOk(mapInfo, vvNew, multiset{}) && RefsOk(mapInfo, nIdCount, {nId}) && CountsOk(mapInfo, nTried, nNew)
      ensures TimesOk() && nId == old(nIdCount) && nId !in old(mapInfo)
      ensures mapInfo == old(mapInfo)[nId := addr.Entry(nTimePenalty, |old(vRandom)|)]
      ensures var info := mapInfo[nId];
              && info.service == addr.service && info.nServices == addr.nServices && info.nRandomPos == |old(vRandom)|
              && info.nTime == (if addr.nTime > nTimePenalty then addr.nTime - nTimePenalty else 0) % 0x1_0000_0000
              && info.nLastTry == info.nLastSuccess == info.nAttempts == info.nRefCount == 0 && !info.fInTried
      ensures forall b | 0 <= b < |vvNew| :: nId !in vvNew[b]
    {
      hide RandomOk, AddrOk, TriedOk, NewOk, RefsOk, CountsOk;
      nId := Create(addr.service, addr.nServices, addr.nTime);
      var info := mapInfo[nId].(nTime := ToUint(Max(0, mapInfo[nId].nTime - nTimePenalty)));
      DataKeeps(mapInfo, nId, info, mapAddr, vRandom, vvTried, vvNew, multiset{}, {nId}, nIdCount, nTried, nNew + 1);
      mapInfo := mapInfo[nId := info];
      nNew := nNew + 1;
      NotInBuckets(mapInfo, vvNew, nId);
    }

    /** `Add_`.  A new address gets an entry; a known one may get its time moved forward and one more
        reference.  `nNow` is the adjusted time and `nRand` the random draw. */
    method Add_(addr: Address, routable: bool, nTimePenalty: int, nNow: int, nRand: nat, nUBucket: nat,
                terrible: set<int>, n: seq<nat>)
      returns (fNew: bool, ghost inserted: bool, ghost evicted: Option<int>)
      requires Valid() && nUBucket < ADDRMAN_NEW_BUCKET_COUNT && |n| == 4 &&
               forall i | 0 <= i < 4 :: n[i] < ADDRMAN_NEW_BUCKET_SIZE
      modifies this
      ensures Valid()
      ensures fNew <==> routable && addr.service.addr !in old(mapAddr)
      ensures !routable ==> mapInfo == old(mapInfo) && vvNew == old(vvNew)
      ensures |vvNew| == |old(vvNew)| == ADDRMAN_NEW_BUCKET_COUNT
      ensures fNew ==> inserted && var id, m := old(nIdCount), old(mapInfo);
        id !in m && id in vvNew[nUBucket] &&
          Joined(m[id := addr.Entry(nTimePenalty, |old(vRandom)|)], mapInfo, id, evicted)
      ensures routable && !fNew ==>
        var id, m := old(mapAddr)[addr.service.addr], old(mapInfo);
        var info := addr.Updated(m[id], nTimePenalty, nNow);
        && info.nRefCount >= 0
        && (inserted <==> addr.Welcome(info) && nRand % Pow2(info.nRefCount) == 0 && id !in old(vvNew)[nUBucket])
        && (inserted ==> id in vvNew[nUBucket] && Joined(m[id := info], mapInfo, id, evicted))
        && (!inserted ==> mapInfo == m[id := info] && vvNew == old(vvNew))
    {
      hide RandomOk, AddrOk, TriedOk, NewOk, RefsOk, CountsOk, Joined, AllTimes, Address.Entry, Address.Updated,
           Address.Welcome;
      fNew, inserted, evicted := false, false, None;
      NewSizes(mapInfo, vvNew, multiset{});
      if !routable { return; }
      var nId;
      var found := Find(addr.service.addr);
      AddrFound(mapInfo, mapAddr, addr.service.addr);
      if found.Some? {
        nId := found.value;
        var more := Renew(nId, addr, nTimePenalty, nNow, nRand);
        if !more { return; }
        IsWelcome(mapInfo, nIdCount, nId, addr);
        RefsExempt(mapInfo, nIdCount, nId);
      } else {
        nId := Admit(addr, nTimePenalty);
        fNew := true;
        NoRefs(addr, nTimePenalty, |old(vRandom)|);
      }
      ghost var m := mapInfo;
      inserted, evicted := Insert(nId, nUBucket, terrible, n);
      if inserted { JoinedTimes(m, mapInfo, nId, evicted); }
    }

    /** `GetAddr_`: different known addresses, as many as the limits allow. */
    method GetAddr_() returns (vAddr: seq<AddrInfo>, ghost ids: seq<int>)
      requires Valid()
      modifies this`mapInfo, this`vRandom
      ensures Valid() && OnlyMoved(old(mapInfo), mapInfo)
      ensures |vAddr| == |ids| == Min(23 * |old(vRandom)| / 100, 2500)
      ensures forall i | 0 <= i < |vAddr| :: ids[i] in old(mapInfo) && old(mapInfo)[ids[i]].SameData(vAddr[i])
      ensures forall i, j | 0 <= i < j < |vAddr| :: vAddr[i].service.addr != vAddr[j].service.addr
    {
      hide RandomOk, AddrOk, TriedOk, NewOk, RefsOk, CountsOk, OnlyMoved, AllTimes;
      var nNodes := ADDRMAN_GETADDR_MAX_PCT * |vRandom| / 100;
      if nNodes > ADDRMAN_GETADDR_MAX {
        nNodes := ADDRMAN_GETADDR_MAX;
      }
      vAddr, ids := [], [];
      NotMoved(mapInfo);
      ghost var m0 := mapInfo;
      for n := 0 to nNodes
        invariant Structure(multiset{}, {}) && TimesOk() && |vRandom| == |old(vRandom)| && OnlyMoved(m0, mapInfo)
        invariant |vAddr| == |ids| == n && ids == vRandom[..n]
        invariant forall i | 0 <= i < n :: ids[i] in m0 && m0[ids[i]].SameData(vAddr[i])
      {
        var nRndPos :| n <= nRndPos < |vRandom|;
        ghost var m := mapInfo;
        SwapRandom(n, nRndPos);
        MovedKeeps(m, mapInfo, mapAddr, vvTried, vvNew, multiset{}, {}, nIdCount, nTried, nNew);
        MovedTwice(m0, m, mapInfo);
        RandomKnown(mapInfo, vRandom, n);
        MovedEntry(m0, mapInfo, vRandom[n]);
        vAddr := vAddr + [mapInfo[vRandom[n]]];
        ids := ids + [vRandom[n]];
      }
      forall i, j | 0 <= i < j < |vAddr| ensures vAddr[i].service.addr != vAddr[j].service.addr {
        assert ids[i] == vRandom[i] && ids[j] == vRandom[j];
        MovedEntry(m0, mapInfo, ids[i]);
        MovedEntry(m0, mapInfo, ids[j]);
        DistinctAddresses(mapInfo, mapAddr, vRandom, i, j);
      }
    }

    /** What `Check_` is meant to test: all entries and all buckets of the table as it is. */
    ghost predicate Checked()
      reads this
    {
      Passes(mapInfo, mapAddr, vRandom, nTried, nNew, vvTried, vvNew)
    }

    /** Id 0 is known and its address is not: the one fault that looking it up repairs. */
    predicate LacksZero()
      reads this`mapInfo, this`mapAddr
    {
      0 in mapInfo && mapInfo[0].service.addr !in mapAddr
    }

    /** What `Check_` does test: looking up an address that is missing inserts it with id 0, so a
        missing address of id 0 is not noticed. */
    ghost predicate PassesCheck()
      reads this
    {
      Passes(mapInfo, LookedUp(mapInfo, mapAddr, mapInfo.Keys), vRandom, nTried, nNew, vvTried, vvNew)
    }

    /** `Check_` returns zero exactly when everything it tests holds of the table it is given, with the
        address of id 0 supplied.  It is right about the table itself unless that address is missing
        and nothing else is wrong. */
    method Check_() returns (r: int)
      modifies this`mapAddr
      ensures r == 0 <==> old(PassesCheck())
      ensures (r == 0 <==> old(Checked())) <==> !(old(LacksZero()) && old(PassesCheck()))
      ensures r == 0 ==> mapAddr == LookedUp(mapInfo, old(mapAddr), mapInfo.Keys) && Checked()
      ensures Grown(old(mapAddr), mapAddr)
      ensures old(Valid()) ==> mapAddr == old(mapAddr)
    {
      hide Grown, TriedBag, NewBag, CountsOk, EntryOk;
      ghost var table := LookedUp(mapInfo, mapAddr, mapInfo.Keys);
      NothingToInsert(mapInfo, mapAddr);
      AsGiven(mapAddr);
      ZeroFails(mapInfo, mapAddr, vRandom);
      if |vRandom| != nTried + nNew { return -7; }
      var setTried, mapNew;
      r, setTried, mapNew := CheckEntries();
      if r != 0 { return; }
      TableCounts(mapInfo, setTried, mapNew, nTried, nNew);
      if |setTried| != nTried { return -9; }
      if |mapNew| != nNew { return -10; }
      var ok, tried, counts;
      ok, tried := CheckTried(setTried);
      assert forall id: int :: Mark(mapInfo, id) == if id in setTried then 1 else 0;
      assert forall id: int ::
               Left(mapNew, id) == if id in mapInfo && !mapInfo[id].fInTried then mapInfo[id].nRefCount else 0;
      if !ok { return -11; }
      ok, counts := CheckNew(mapNew);
      if !ok { return -12; }
      if |tried| != 0 { return -13; }
      if |counts| != 0 { return -15; }
      return 0;
    }

    /** The first loop of `Check_`, over the entries. */
    method CheckEntries() returns (r: int, setTried: set<int>, mapNew: map<int, int>)
      modifies this`mapAddr
      ensures r == 0 <==>
                forall id | id in mapInfo ::
                  EntryOk(mapInfo, LookedUp(mapInfo, old(mapAddr), mapInfo.Keys), vRandom, id)
      ensures r == 0 ==> mapAddr == LookedUp(mapInfo, old(mapAddr), mapInfo.Keys)
      ensures r == 0 ==> setTried == TriedIds(mapInfo) && mapNew == CountsWithout(mapInfo, {})
      ensures r == 0 ==> forall id | id in mapNew :: mapNew[id] > 0
      ensures Grown(old(mapAddr), mapAddr)
      ensures old(AddrOk(mapInfo, mapAddr)) ==> mapAddr == old(mapAddr)
    {
      hide Grown, AddrOk, EntryOk, EntriesOk, TriedIds, CountsWithout, LookedUp, Inserted;
      setTried, mapNew := {}, map[];
      ghost var table := LookedUp(mapInfo, mapAddr, mapInfo.Keys);
      NoneSeen(mapInfo, table, vRandom);
      NoneLookedUp(mapInfo, mapAddr);
      ghost var done := {};
      var rest := mapInfo.Keys;
      while rest != {}
        invariant done !! rest && done + rest == mapInfo.Keys && EntriesOk(mapInfo, table, vRandom, done)
        invariant mapAddr == LookedUp(mapInfo, old(mapAddr), done)
        invariant setTried == TriedIds(mapInfo) - rest
        invariant mapNew == CountsWithout(mapInfo, rest) && forall id | id in mapNew :: mapNew[id] > 0
        decreases |rest|
      {
        SomeMember(rest);
        var n :| n in rest;
        var info := mapInfo[n];
        LookOne(mapInfo, old(mapAddr), done, n, vRandom);
        AddressKnown(mapInfo, old(mapAddr), done, n);
        OnlyGrown(mapInfo, old(mapAddr), done, n);
        r := CheckEntry(n);
        if r != 0 { return; }
        EntriesMore(mapInfo, table, vRandom, done, n);
        RefPositive(mapInfo, table, vRandom, n);
        done := done + {n};
        SeenOne(mapInfo, rest, n);
        if info.fInTried {
          setTried := setTried + {n};
        } else {
          mapNew := mapNew[n := info.nRefCount];
        }
        rest := rest - {n};
      }
      assert done == mapInfo.Keys;
      AllSeen(mapInfo, table, vRandom);
      AllKnown(mapInfo, old(mapAddr), done);
      AllGrown(mapInfo, old(mapAddr), done);
      return 0, setTried, mapNew;
    }

    /** One entry of the first loop.  Its address is inserted, with id 0, when it is missing and the
        tests before it pass. */
    method CheckEntry(n: int) returns (r: int)
      requires n in mapInfo
      modifies this`mapAddr
      ensures mapAddr == if Reaches(mapInfo[n]) then Inserted(old(mapAddr), mapInfo[n].service.addr) else old(mapAddr)
      ensures r == 0 <==> EntryOk(mapInfo, mapAddr, vRandom, n)
    {
      var info := mapInfo[n];
      if info.fInTried {
        if info.nLastSuccess == 0 { return -1; }
        if info.nRefCount != 0 { return -2; }
      } else {
        if info.nRefCount < 0 || info.nRefCount > ADDRMAN_NEW_BUCKETS_PER_ADDRESS { return -3; }
        if info.nRefCount == 0 { return -4; }
      }
      if info.service.addr !in mapAddr { mapAddr := mapAddr[info.service.addr := 0]; }
      if mapAddr[info.service.addr] != n { return -5; }
      if info.nRandomPos < 0 || info.nRandomPos >= |vRandom| || vRandom[info.nRandomPos] != n { return -14; }
      if info.nLastTry < 0 { return -6; }
      if info.nLastSuccess < 0 { return -8; }
      return 0;
    }

    /** The loop of `Check_` over the tried table, which crosses off what it meets. */
    method CheckTried(marked: set<int>) returns (ok: bool, setTried: set<int>)
      ensures ok && |setTried| == 0 <==> forall id: int :: TriedBag(vvTried)[id] == if id in marked then 1 else 0
      ensures !ok ==> exists id :: TriedBag(vvTried)[id] != if id in marked then 1 else 0
    {
      hide TriedBag;
      setTried := marked;
      NoBags();
      for n := 0 to |vvTried|
        invariant setTried <= marked
        invariant forall id: int ::
                    (if id in setTried then 1 else 0) + TriedBag(vvTried[..n])[id] == if id in marked then 1 else 0
      {
        var vTried := vvTried[n];
        TriedPrefix(vvTried, n);
        assert vTried[..0] == [];
        for i := 0 to |vTried|
          invariant setTried <= marked
          invariant forall id: int ::
            (if id in setTried then 1 else 0) + TriedBag(vvTried[..n])[id] + multiset(vTried[..i])[id] ==
              if id in marked then 1 else 0
        {
          var x := vTried[i];
          OneMoreTried(vTried, i);
          if x !in setTried { return false, setTried; }
          setTried := setTried - {x};
        }
        assert vTried[..|vTried|] == vTried;
      }
      assert vvTried[..|vvTried|] == vvTried;
      if |setTried| != 0 { SomeMember(setTried); }
      return true, setTried;
    }

    /** The loop of `Check_` over the new table, which counts references down. */
    method CheckNew(counts: map<int, int>) returns (ok: bool, mapNew: map<int, int>)
      requires forall id | id in counts :: counts[id] > 0
      ensures ok && |mapNew| == 0 <==> forall id: int :: NewBag(vvNew)[id] == Left(counts, id)
      ensures !ok ==> exists id :: NewBag(vvNew)[id] != Left(counts, id)
    {
      hide NewBag;
      mapNew := counts;
      NoBags();
      for n := 0 to |vvNew|
        invariant forall id | id in mapNew :: mapNew[id] > 0
        invariant forall id: int :: Left(mapNew, id) + NewBag(vvNew[..n])[id] == Left(counts, id)
      {
        var vNew := vvNew[n];
        NewPrefix(vvNew, n);
        var rest := vNew;
        while rest != {}
          invariant rest <= vNew
          invariant forall id | id in mapNew :: mapNew[id] > 0
          invariant forall id: int ::
                      Left(mapNew, id) + NewBag(vvNew[..n])[id] + (if id in vNew - rest then 1 else 0) ==
                        Left(counts, id)
        {
          SomeMember(rest);
          var x :| x in rest;
          if x !in mapNew {
            assert Left(mapNew, x) == 0;
            return false, mapNew;
          }
          if mapNew[x] - 1 == 0 {
            mapNew := mapNew - {x};
          } else {
            mapNew := mapNew[x := mapNew[x] - 1];
          }
          rest := rest - {x};
        }
      }
      assert vvNew[..|vvNew|] == vvNew;
      if |mapNew| != 0 {
        SomeMember(mapNew.Keys);
        assert exists id :: id in mapNew && Left(mapNew, id) > 0;
      }
      return true, mapNew;
    }

    /** The first half of `MakeTried`: every bucket lets go of `nId`, which ends with no references. */
    method LeaveNew(nId: int, nOrigin: nat)
      requires Structure(multiset{}, {}) && nId in mapInfo && !mapInfo[nId].fInTried && nOrigin < |vvNew| &&
               nId in vvNew[nOrigin]
      modifies this`mapInfo, this`vvNew
      ensures Structure(multiset{}, {nId})
      ensures mapInfo == old(mapInfo)[nId := old(mapInfo)[nId].(nRefCount := 0)]
      ensures |vvNew| == |old(vvNew)| && |vvNew[nOrigin]| < ADDRMAN_NEW_BUCKET_SIZE &&
              forall b | 0 <= b < |vvNew| :: nId !in vvNew[b]
    {
      hide RandomOk, AddrOk, TriedOk, NewOk, RefsOk, CountsOk;
      ghost var m0 := mapInfo;
      RefsExempt(mapInfo, nIdCount, nId);
      NewSizes(mapInfo, vvNew, multiset{});
      for k := 0 to |vvNew|
        invariant |vvNew| == |old(vvNew)| && Structure(multiset{}, {nId}) && nId in mapInfo
        invariant mapInfo == m0[nId := m0[nId].(nRefCount := mapInfo[nId].nRefCount)]
        invariant forall b | 0 <= b < k :: nId !in vvNew[b]
        invariant forall b | k <= b < |vvNew| :: vvNew[b] == old(vvNew)[b]
        invariant nOrigin < k ==> |vvNew[nOrigin]| < ADDRMAN_NEW_BUCKET_SIZE
      {
        if nId in vvNew[k] {
          var info := mapInfo[nId].(nRefCount := mapInfo[nId].nRefCount - 1);
          ReplaceKeeps(mapInfo, nId, info, mapAddr, vRandom);
          LetGo(mapInfo, nId, info, vvTried, vvNew, k, nIdCount, nTried, nNew);
          mapInfo := mapInfo[nId := info];
          vvNew := vvNew[k := vvNew[k] - {nId}];
        }
      }
      NoBuckets(mapInfo, vvNew, nId);
    }
  }

  /** A manager that knows one service. */
  method OneEntry(addr: Address) returns (man: CAddrMan)
    ensures fresh(man) && man.Valid() && man.Knows(addr.service)
  {
    hide RandomOk, TriedOk, NewOk, RefsOk, CountsOk, AllTimes;
    man := new CAddrMan();
    ghost var id := man.nIdCount;
    var fNew;
    ghost var inserted, evicted;
    fNew, inserted, evicted := man.Add_(addr, true, 0, 0, 0, 0, {}, [0, 0, 0, 0]);
    assert man.mapInfo[id].service == addr.service;
  }

  /** Callers leave the time to its default, the adjusted time; a clock set before 1970 is enough for
      `Good_` and `Attempt_` to leave entries behind that `Check_` refuses. */
  method TimesLost(addr: Address, draws: seq<nat>) returns (good: CAddrMan, attempt: CAddrMan)
    requires |draws| == ADDRMAN_TRIED_ENTRIES_INSPECT_ON_EVICT &&
             forall i | 0 <= i < |draws| :: i <= draws[i] < ADDRMAN_TRIED_BUCKET_SIZE
    ensures !good.TimesOk() && !attempt.TimesOk()
  {
    hide RandomOk, AddrOk, TriedOk, NewOk, RefsOk, CountsOk, AllTimes;
    good := OneEntry(addr);
    attempt := OneEntry(addr);
    ghost var evicted := good.Good_(addr.service, 0, 0, 0, 0, draws);
    attempt.Attempt_(addr.service, -1);
  }

  /** The invariant kept by the operations is what `Check_` tests, together with the sizes of the
      buckets, the range of the ids and the absence of unknown addresses. */
  lemma ValidIsChecked(a: CAddrMan)
    ensures a.Valid() <==> a.Checked() && Untested(a.mapInfo, a.mapAddr, a.vvTried, a.vvNew, a.nIdCount)
  {
    hide TriedBag, NewBag, CountsOk;
    IdsSplit(a.mapInfo);
    if a.Valid() {
      CountsAddUp(a.mapInfo, a.vRandom, a.nTried, a.nNew);
      assert forall id: int :: NewBag(a.vvNew)[id] == Refs(a.mapInfo, id);
    }
    if a.Checked() && Untested(a.mapInfo, a.mapAddr, a.vvTried, a.vvNew, a.nIdCount) {
      CountsTotal(a.mapInfo, a.nTried, a.nNew);
      BackPointers(a.mapInfo, a.mapAddr, a.vRandom);
      assert forall id: int :: NewBag(a.vvNew)[id] + multiset{}[id] == Refs(a.mapInfo, id);
    }
  }
}
