/** The address manager: five indexes over the entries of the known peer addresses,
    updated step by step and kept in agreement by every operation. */
module AddrMan {
  import opened Basics
  import opened AddrTables
  import AddrCheck

  class AddrMan {
    const env: Env
    var nIdCount: int
    var mapInfo: InfoMap
    var mapAddr: map<Service, int>
    var vRandom: seq<int>
    var nTried: int
    var vvTried: Table
    var nNew: int
    var vvNew: Table
    var lastGood: int
    var triedCollisions: set<int>
    var netCounts: NetCounts

    // All indexes agree, except that `limbo` entries are not counted and `zero`
    // entries may be in neither table.
    ghost predicate Inv(limbo: set<int>, zero: set<int>)
      reads this
    {
      && AddrIndex(mapInfo, mapAddr)
      && RandomIndex(mapInfo, vRandom)
      && NewTable(env, mapInfo, vvNew)
      && TriedTable(env, mapInfo, vvTried)
      && Fields(env, mapInfo, nIdCount, zero)
      && Counts(env, mapInfo, limbo, nNew, nTried, netCounts)
      && nIdCount >= 0
    }

    // Entries, addresses and both tables.
    ghost function Now(): Tables
      reads this
    {
      Tables(mapInfo, mapAddr, vvNew, vvTried)
    }

    // What holds between any two public operations.
    ghost predicate Valid()
      reads this
    {
      && Inv({}, {})
      && EnvOk(env)
      && |triedCollisions| <= SET_TRIED_COLLISION_SIZE
      && CollisionsOk(env, mapInfo, vvTried, nIdCount, triedCollisions)
    }

    // The same while the collision of an entry just promoted is still on record.
    ghost predicate ValidBut(id: int)
      reads this
    {
      && Inv({}, {})
      && EnvOk(env)
      && |triedCollisions| <= SET_TRIED_COLLISION_SIZE
      && CollisionsOk(env, mapInfo, vvTried, nIdCount, triedCollisions - {id})
    }

    constructor (env: Env)
      requires EnvOk(env)
      ensures this.env == env && Valid()
      ensures mapInfo == map[] && triedCollisions == {} && vvTried == map[] && vvNew == map[]
      ensures nIdCount == 0 && lastGood == 1
    {
      this.env := env;
      nIdCount := 0;
      mapInfo := map[];
      mapAddr := map[];
      vRandom := [];
      nTried := 0;
      vvTried := map[];
      nNew := 0;
      vvNew := map[];
      lastGood := 1;
      triedCollisions := {};
      netCounts := map[];
      new;
      EmptyCounts(env);
    }

    method Create(addr: Address, source: NetAddr) returns (nId: int)
      requires Inv({}, {}) && addr.service !in mapAddr && env.valid(addr.service.ip)
      modifies this`nIdCount, this`mapInfo, this`mapAddr, this`vRandom, this`nNew, this`netCounts
      ensures Inv({}, {nId})
      ensures nId == old(nIdCount) && nId !in old(mapInfo) && nIdCount == nId + 1
      ensures mapInfo == old(mapInfo)[nId := Info(addr, source, 0, 0, 0, 0, 0, false, |old(vRandom)|)]
      ensures mapAddr == old(mapAddr)[addr.service := nId]
    {
      hide AddrIndex, RandomIndex, NewTable, TriedTable, Counts;
      nId := nIdCount;
      nIdCount := nIdCount + 1;
      var info := Info(addr, source, 0, 0, 0, 0, 0, false, |vRandom|);
      InsertEntry(env, mapInfo, mapAddr, vRandom, vvNew, vvTried, nId, info);
      CountsDelta(env, mapInfo, mapInfo[nId := info], {}, {}, nId, env.network(addr.service.ip), nNew, nTried,
                  netCounts);
      mapInfo := mapInfo[nId := info];
      mapAddr := mapAddr[addr.service := nId];
      vRandom := vRandom + [nId];
      nNew := nNew + 1;
      netCounts := Bump(netCounts, env.network(addr.service.ip), 1, 0);
    }

    method SwapRandom(p1: int, p2: int)
      requires RandomIndex(mapInfo, vRandom)
      requires p1 != p2 ==> 0 <= p1 < |vRandom| && 0 <= p2 < |vRandom|
      modifies this`mapInfo, this`vRandom
      ensures SameButPos(old(mapInfo), mapInfo) && RandomIndex(mapInfo, vRandom)
      ensures p1 == p2 ==> vRandom == old(vRandom)
      ensures p1 != p2 ==> vRandom == old(vRandom)[p1 := old(vRandom)[p2]][p2 := old(vRandom)[p1]]
    {
      if p1 == p2 {
        return;
      }
      var id1, id2 := RandomAt(vRandom, p1), RandomAt(vRandom, p2);
      assert id1 in mapInfo && id2 in mapInfo;
      SwapPositions(mapInfo, vRandom, p1, p2);
      mapInfo := mapInfo[id1 := mapInfo[id1].(nRandomPos := p2)];
      mapInfo := mapInfo[id2 := mapInfo[id2].(nRandomPos := p1)];
      vRandom := vRandom[p1 := id2];
      vRandom := vRandom[p2 := id1];
    }

    method Delete(nId: int, ghost limbo: set<int>, ghost zero: set<int>)
      requires Inv(limbo, zero) && nId in mapInfo && nId !in limbo
      requires !mapInfo[nId].fInTried && mapInfo[nId].nRefCount == 0
      modifies this`mapInfo, this`mapAddr, this`vRandom, this`nNew, this`netCounts
      ensures Inv(limbo, zero - {nId})
      ensures SameButPos(old(mapInfo) - {nId}, mapInfo)
      ensures mapAddr == old(mapAddr) - {old(mapInfo)[nId].addr.service}
    {
      hide AddrIndex, NewTable, TriedTable, Counts, Fields, RandomIndex, Bump, CountOf;
      var service := mapInfo[nId].addr.service;
      PositionOf(mapInfo, vRandom, nId);
      SwapRandom(mapInfo[nId].nRandomPos, |vRandom| - 1);
      EntryAt(mapInfo, vRandom, |vRandom| - 1);
      RemoveLast(env, old(mapInfo), mapInfo, mapAddr, vRandom, vvNew, vvTried, nIdCount, zero, nId);
      CountsRemove(env, old(mapInfo), mapInfo, limbo, nNew, nTried, netCounts, nId);
      netCounts := Bump(netCounts, env.network(service.ip), -1, 0);
      vRandom := vRandom[..|vRandom| - 1];
      mapAddr := mapAddr - {service};
      mapInfo := mapInfo - {nId};
      nNew := nNew - 1;
    }

    method ClearNew(slot: Slot, ghost limbo: set<int>, ghost zero: set<int>)
      requires Inv(limbo, zero)
      requires slot in vvNew ==> vvNew[slot] !in limbo
      modifies this`mapInfo, this`mapAddr, this`vRandom, this`nNew, this`netCounts, this`vvNew
      ensures Inv(limbo, zero)
      ensures vvNew == old(vvNew) - {slot}
      ensures slot !in old(vvNew) ==> mapInfo == old(mapInfo) && mapAddr == old(mapAddr)
      ensures slot in old(vvNew) ==> OneCleared(old(mapInfo), mapInfo, old(mapAddr), mapAddr, old(vvNew)[slot])
    {
      hide AddrIndex, RandomIndex, NewTable, TriedTable, Counts;
      if slot in vvNew {
        var id := IdAt(vvNew, slot);
        SlotCounted(env, mapInfo, vvNew, slot);
        ClearSlot(env, mapInfo, mapAddr, vRandom, vvNew, vvTried, slot);
        var info := mapInfo[id].(nRefCount := mapInfo[id].nRefCount - 1);
        CountsFrameOne(env, mapInfo, id, info, limbo, nNew, nTried, netCounts);
        mapInfo := mapInfo[id := info];
        vvNew := vvNew - {slot};
        if info.nRefCount == 0 {
          assert Inv(limbo, zero + {id});
          Delete(id, limbo, zero + {id});
          FieldsShrink(env, mapInfo, nIdCount, zero + {id} - {id}, zero, id);
        }
      }
    }

    // Take an entry out of every new bucket it is in; afterwards it is counted nowhere.
    method LeaveNew(nId: int)
      requires Inv({}, {}) && nId in mapInfo && !mapInfo[nId].fInTried
      modifies this`mapInfo, this`vvNew, this`nNew, this`netCounts
      ensures Inv({nId}, {nId})
      ensures mapInfo == old(mapInfo)[nId := old(mapInfo)[nId].(nRefCount := 0)]
      ensures vvNew == Without(old(vvNew), nId)
    {
      hide AddrIndex, RandomIndex, NewTable, TriedTable, Counts, Fields, Bump, Thinned, Swept;
      NotThinned(vvNew, nId);
      NotSwept(env, mapInfo[nId].addr.service, vvNew, nId,
               env.NewBucket(mapInfo[nId].addr.service, mapInfo[nId].source));
      var service := mapInfo[nId].addr.service;
      var start := env.NewBucket(service, mapInfo[nId].source);
      FieldsWiden(env, mapInfo, nIdCount, {}, {nId});
      var n := 0;
      while n < NEW_BUCKET_COUNT
        invariant 0 <= n <= NEW_BUCKET_COUNT
        invariant Inv({}, {nId})
        invariant mapInfo.Keys == old(mapInfo).Keys
        invariant mapInfo == old(mapInfo)[nId := old(mapInfo)[nId].(nRefCount := mapInfo[nId].nRefCount)]
        invariant Swept(env, service, vvNew, nId, start, n)
        invariant Thinned(old(vvNew), vvNew, nId)
      {
        var bucket := (start + n) % NEW_BUCKET_COUNT;
        var slot := (bucket, env.Position(true, bucket, service));
        if slot in vvNew && IdAt(vvNew, slot) == nId {
          DropReference(env, mapInfo, mapAddr, vRandom, vvNew, vvTried, nIdCount, nNew, nTried, netCounts, nId, slot);
          SweptDrop(env, service, vvNew, nId, start, n, slot);
          ThinnedMore(old(vvNew), vvNew, nId, slot);
          vvNew := vvNew - {slot};
          mapInfo := mapInfo[nId := mapInfo[nId].(nRefCount := mapInfo[nId].nRefCount - 1)];
          if mapInfo[nId].nRefCount == 0 {
            break;
          }
        } else {
          SweptNext(env, service, vvNew, nId, start, n);
        }
        n := n + 1;
      }
      if n == NEW_BUCKET_COUNT {
        NoReferences(env, mapInfo, vvNew, nId, start);
      }
      assert mapInfo[nId].nRefCount == 0;  // the assertion of the source holds
      ThinnedOut(env, mapInfo, old(vvNew), vvNew, nId);
      CountsMove(env, mapInfo, mapInfo, {}, {nId}, nId, nNew, nTried, netCounts);
      nNew := nNew - 1;
      netCounts := Bump(netCounts, env.network(service.ip), -1, 0);
    }

    // Move the occupant of a tried slot back to its new bucket, clearing what is there.
    method EvictTried(slot: Slot, ghost nId: int) returns (ghost lost: set<Service>)
      requires Inv({nId}, {nId}) && slot in vvTried && nId in mapInfo && !mapInfo[nId].fInTried
      requires mapInfo[nId].nRefCount == 0
      modifies this`mapInfo, this`mapAddr, this`vRandom, this`nNew, this`nTried, this`netCounts, this`vvNew,
               this`vvTried
      ensures Inv({nId}, {nId})
      ensures vvTried == old(vvTried) - {slot}
      ensures old(vvTried)[slot] in old(mapInfo)
      ensures var e := old(mapInfo)[old(vvTried)[slot]];
              vvNew == old(vvNew)[env.NewSlot(e.addr.service, e.source) := old(vvTried)[slot]]
      ensures Survives(old(mapInfo), mapInfo, old(mapAddr), mapAddr, lost, {nId, old(vvTried)[slot]})
      ensures nId in mapInfo && mapInfo[nId] == old(mapInfo)[nId].(nRandomPos := mapInfo[nId].nRandomPos)
    {
      hide AddrIndex, RandomIndex, NewTable, TriedTable, Counts, Fields, Bump, Survives, OneCleared, SameButPos;
      var idEvict := IdAt(vvTried, slot);
      TriedOccupant(env, mapInfo, vvTried, nIdCount, {nId}, slot);
      TakeFromTried(env, mapInfo, mapAddr, vRandom, vvNew, vvTried, nIdCount, slot, nId);
      CountsMove(env, mapInfo, mapInfo[idEvict := mapInfo[idEvict].(fInTried := false)], {nId}, {nId, idEvict},
                 idEvict, nNew, nTried, netCounts);
      var net := env.network(mapInfo[idEvict].addr.service.ip);
      mapInfo := mapInfo[idEvict := mapInfo[idEvict].(fInTried := false)];
      vvTried := vvTried - {slot};
      nTried := nTried - 1;
      netCounts := Bump(netCounts, net, 0, -1);
      lost := BackToNew(idEvict, nId);
      EvictedSurvives(old(mapInfo), mapInfo, old(mapAddr), mapAddr, lost, {nId, idEvict}, idEvict);
    }

    // File an evicted entry in its new bucket, clearing what is there.
    method BackToNew(idEvict: int, ghost nId: int) returns (ghost lost: set<Service>)
      requires Inv({nId, idEvict}, {nId, idEvict}) && idEvict != nId && nId in mapInfo && idEvict in mapInfo
      requires mapInfo[nId].nRefCount == 0 && !mapInfo[idEvict].fInTried && mapInfo[idEvict].nRefCount == 0
      modifies this`mapInfo, this`mapAddr, this`vRandom, this`nNew, this`netCounts, this`vvNew
      ensures Inv({nId}, {nId})
      ensures var e := old(mapInfo)[idEvict];
              vvNew == old(vvNew)[env.NewSlot(e.addr.service, e.source) := idEvict]
      ensures Survives(old(mapInfo), mapInfo, old(mapAddr), mapAddr, lost, {nId, idEvict})
      ensures nId in mapInfo && mapInfo[nId] == old(mapInfo)[nId].(nRandomPos := mapInfo[nId].nRandomPos)
    {
      hide AddrIndex, RandomIndex, NewTable, TriedTable, Counts, Fields, Bump, Survives, OneCleared, SameButPos;
      ghost var m1, a1, t1 := mapInfo, mapAddr, vvNew;
      var net := env.network(mapInfo[idEvict].addr.service.ip);
      var slotNew := env.NewSlot(mapInfo[idEvict].addr.service, mapInfo[idEvict].source);
      Unreferenced(env, mapInfo, vvNew, slotNew, nIdCount, {nId, idEvict});
      ClearNew(slotNew, {nId, idEvict}, {nId, idEvict});
      assert slotNew !in vvNew;  // the assertion of the source holds
      lost := if slotNew in t1 && m1[t1[slotNew]].nRefCount == 1 then {m1[t1[slotNew]].addr.service} else {};
      ClearedKeeps(m1, mapInfo, a1, mapAddr, t1, slotNew, nId);
      ClearedKeeps(m1, mapInfo, a1, mapAddr, t1, slotNew, idEvict);
      ClearedSurvives(m1, mapInfo, a1, mapAddr, t1, slotNew, lost, {nId, idEvict});
      RefiledSurvives(m1, mapInfo, a1, mapAddr, lost, {nId, idEvict}, idEvict);
      assert {nId} + {idEvict} == {nId, idEvict};
      EnterNew(env, mapInfo, mapAddr, vRandom, vvNew, vvTried, nIdCount, {nId}, idEvict, slotNew);
      CountsMove(env, mapInfo, mapInfo[idEvict := mapInfo[idEvict].(nRefCount := 1)], {nId, idEvict}, {nId},
                 idEvict, nNew, nTried, netCounts);
      mapInfo := mapInfo[idEvict := mapInfo[idEvict].(nRefCount := 1)];
      vvNew := vvNew[slotNew := idEvict];
      nNew := nNew + 1;
      netCounts := Bump(netCounts, net, 1, 0);
    }

    // Move an entry from new to tried; a tried entry in the way goes back to new, which
    // may push out a third entry.
    method MakeTried(nId: int) returns (ghost lost: set<Service>)
      requires Inv({}, {}) && nId in mapInfo && !mapInfo[nId].fInTried && mapInfo[nId].lastSuccess > 0
      modifies this`mapInfo, this`mapAddr, this`vRandom, this`nNew, this`nTried, this`netCounts, this`vvNew,
               this`vvTried
      ensures Inv({}, {})
      ensures nId in mapInfo && mapInfo[nId].fInTried
      ensures vvTried == old(vvTried)[env.TriedSlot(old(mapInfo)[nId].addr.service) := nId]
      ensures var slot := env.TriedSlot(old(mapInfo)[nId].addr.service);
              if slot !in old(vvTried) then vvNew == Without(old(vvNew), nId)
              else
                && old(vvTried)[slot] in old(mapInfo)
                && var e := old(mapInfo)[old(vvTried)[slot]];
                vvNew == Without(old(vvNew), nId)[env.NewSlot(e.addr.service, e.source) := old(vvTried)[slot]]
      ensures Survives(old(mapInfo), mapInfo, old(mapAddr), mapAddr, lost, {nId})
    {
      hide AddrIndex, RandomIndex, NewTable, TriedTable, Counts, Fields, Bump, Survives, Without, Env.TriedSlot,
           Env.NewSlot;
      lost := {};
      LeaveNew(nId);
      ghost var m1, safe := mapInfo, {nId};
      NothingLost(mapInfo, mapAddr, safe);
      var slot := env.TriedSlot(mapInfo[nId].addr.service);
      if slot in vvTried {
        safe := {nId, vvTried[slot]};
        lost := EvictTried(slot, nId);
      }
      MovedSurvives(old(mapInfo), m1, mapInfo, old(mapAddr), mapAddr, lost, safe, nId);
      assert slot !in vvTried;  // the assertion of the source holds
      var net := env.network(mapInfo[nId].addr.service.ip);
      EnterTried(env, mapInfo, mapAddr, vRandom, vvNew, vvTried, nIdCount, nId, slot);
      CountsMove(env, mapInfo, mapInfo[nId := mapInfo[nId].(fInTried := true)], {nId}, {}, nId, nNew, nTried,
                 netCounts);
      vvTried := vvTried[slot := nId];
      nTried := nTried + 1;
      mapInfo := mapInfo[nId := mapInfo[nId].(fInTried := true)];
      netCounts := Bump(netCounts, net, 0, 1);
    }

    // Overwrite times, services and counters of an entry.
    method SetRecord(id: int, info: Info, ghost zero: set<int>)
      requires Inv({}, zero) && id in mapInfo
      requires info.addr.service == mapInfo[id].addr.service && info.nRefCount == mapInfo[id].nRefCount
      requires info.fInTried == mapInfo[id].fInTried && info.nRandomPos == mapInfo[id].nRandomPos
      requires info.lastTry >= 0 && info.lastSuccess >= 0 && (info.fInTried ==> info.lastSuccess > 0)
      modifies this`mapInfo
      ensures Inv({}, zero) && mapInfo == old(mapInfo)[id := info]
    {
      hide AddrIndex, RandomIndex, NewTable, TriedTable, Counts;
      RecordFrame(env, mapInfo, mapAddr, vRandom, vvNew, vvTried, id, info);
      CountsFrameOne(env, mapInfo, id, info, {}, nNew, nTried, netCounts);
      mapInfo := mapInfo[id := info];
    }

    method Find(service: Service) returns (found: bool, id: int)
      requires Inv({}, {})
      ensures found <==> service in mapAddr
      ensures found ==> id == mapAddr[service] && id in mapInfo && mapInfo[id].addr.service == service
      ensures found ==> mapInfo[id].lastTry >= 0 && mapInfo[id].lastSuccess >= 0 && 0 <= id < nIdCount
      ensures found && mapInfo[id].fInTried ==> mapInfo[id].lastSuccess > 0
      ensures found && !mapInfo[id].fInTried ==> 1 <= mapInfo[id].nRefCount <= NEW_BUCKETS_PER_ADDRESS
    {
      hide RandomIndex, NewTable, TriedTable, Counts;
      if service !in mapAddr {
        return false, -1;
      }
      id := IdOf(mapAddr, service);
      found := true;
    }

    method Good(service: Service, testBeforeEvict: bool, time: int) returns (moved: bool, ghost lost: set<Service>)
      requires Valid() && time > 0
      modifies this`mapInfo, this`mapAddr, this`vRandom, this`nNew, this`nTried, this`netCounts, this`vvNew,
               this`vvTried, this`lastGood, this`triedCollisions
      ensures !moved || testBeforeEvict ==> Valid()
      ensures moved ==> service in old(mapAddr) && ValidBut(old(mapAddr)[service])
      ensures lastGood == time
      ensures moved <==>
                && IsNew(EntryOf(old(mapInfo), old(mapAddr), service))
                && !(testBeforeEvict && env.TriedSlot(service) in old(vvTried))
      ensures moved ==> var e := EntryOf(mapInfo, mapAddr, service); e.Some? && e.value.fInTried
      ensures moved ==> vvTried == old(vvTried)[env.TriedSlot(service) := old(mapAddr)[service]]
      ensures moved ==> Promoted(env, old(Now()), Now(), old(mapAddr)[service], time)
      ensures !moved ==>
                && vvTried == old(vvTried) && vvNew == old(vvNew) && lost == {}
                && SameIndexed(old(mapInfo), mapInfo) && OneUpdated(old(mapInfo), mapInfo, mapAddr, service)
      ensures |lost| <= 1 && service !in lost && mapAddr == old(mapAddr) - lost
      ensures forall s :: s in lost ==> IsLoneNew(EntryOf(old(mapInfo), old(mapAddr), s))
      ensures service in old(mapAddr) ==>
                var id := old(mapAddr)[service];
                && id in old(mapInfo) && id in mapInfo
                && SameRecord(old(mapInfo)[id].(lastSuccess := time, lastTry := time, nAttempts := 0), mapInfo[id])
      ensures triedCollisions ==
              if && service in old(mapAddr) && IsNew(EntryOf(old(mapInfo), old(mapAddr), service))
                 && !moved && |old(triedCollisions)| < SET_TRIED_COLLISION_SIZE
              then old(triedCollisions) + {old(mapAddr)[service]} else old(triedCollisions)
    {
      hide AddrIndex, RandomIndex, NewTable, TriedTable, Counts, Fields, CollisionsOk, SameRecord, IsLoneNew,
           SameIndexed, Promoted, RecordsKept, Relocated;
      moved, lost := false, {};
      lastGood := time;
      var found, id := Find(service);
      if !found {
        SameIndexedSelf(mapInfo);
        return;
      }
      var info := mapInfo[id].(lastSuccess := time, lastTry := time, nAttempts := 0);
      SameIndexedOne(mapInfo, id, info);
      CollisionsFrame(env, mapInfo, mapInfo[id := info], vvTried, nIdCount, triedCollisions);
      SetRecord(id, info, {});
      SameAsItself(info);
      if mapInfo[id].fInTried {
        return;
      }
      assert mapInfo[id].nRefCount > 0;  // otherwise "something bad happened"
      ghost var s1 := Now();
      moved, lost := MoveOrCollide(id, service, testBeforeEvict);
      if moved {
        LoneFrame(old(mapInfo), s1.m, old(mapAddr), id, lost);
        PromotedAfterSet(env, old(Now()), s1, Now(), id, time);
      }
    }

    // A new entry that works goes to tried, unless the entry in its slot is to be tested first.
    method MoveOrCollide(id: int, service: Service, testBeforeEvict: bool)
      returns (moved: bool, ghost lost: set<Service>)
      requires Valid() && service in mapAddr && id == mapAddr[service] && id in mapInfo && 0 <= id < nIdCount
      requires mapInfo[id].addr.service == service && !mapInfo[id].fInTried && mapInfo[id].lastSuccess > 0
      modifies this`mapInfo, this`mapAddr, this`vRandom, this`nNew, this`nTried, this`netCounts, this`vvNew,
               this`vvTried, this`triedCollisions
      ensures moved <==> !(testBeforeEvict && env.TriedSlot(service) in old(vvTried))
      ensures !moved || testBeforeEvict ==> Valid()
      ensures !moved ==> Now() == old(Now()) && lost == {}
      ensures triedCollisions == if !moved && |old(triedCollisions)| < SET_TRIED_COLLISION_SIZE
                                 then old(triedCollisions) + {id} else old(triedCollisions)
      ensures moved ==>
                && ValidBut(id) && vvTried == old(vvTried)[env.TriedSlot(service) := id]
                && vvNew == Relocated(env, old(mapInfo), old(vvNew), old(vvTried), id)
                && RecordsKept(old(mapInfo), mapInfo)
                && id in mapInfo && mapInfo[id].fInTried && SameRecord(old(mapInfo)[id], mapInfo[id])
      ensures |lost| <= 1 && service !in lost && mapAddr == old(mapAddr) - lost
      ensures forall s :: s in lost ==> IsLoneNew(EntryOf(old(mapInfo), old(mapAddr), s))
    {
      hide AddrIndex, RandomIndex, NewTable, TriedTable, Counts, Fields, CollisionsOk, SameRecord, IsLoneNew,
           RecordsKept, Relocated;
      moved, lost := false, {};
      var slot := env.TriedSlot(service);
      if testBeforeEvict && slot in vvTried {
        if |triedCollisions| < SET_TRIED_COLLISION_SIZE {
          CollisionsAdd(env, mapInfo, vvTried, nIdCount, triedCollisions, id);
          triedCollisions := triedCollisions + {id};
        }
      } else {
        if slot !in vvTried {
          NoCollision(env, mapInfo, vvTried, nIdCount, triedCollisions, id);
        }
        lost := Promote(id, service);
        moved := true;
      }
    }

    // Last part of Good: the entry goes to tried.
    method Promote(id: int, service: Service) returns (ghost lost: set<Service>)
      requires Valid() && service in mapAddr && id == mapAddr[service] && id in mapInfo
      requires mapInfo[id].addr.service == service
      requires !mapInfo[id].fInTried && mapInfo[id].lastSuccess > 0
      modifies this`mapInfo, this`mapAddr, this`vRandom, this`nNew, this`nTried, this`netCounts, this`vvNew,
               this`vvTried
      ensures ValidBut(id) && vvTried == old(vvTried)[env.TriedSlot(service) := id]
      ensures vvNew == Relocated(env, old(mapInfo), old(vvNew), old(vvTried), id)
      ensures RecordsKept(old(mapInfo), mapInfo)
      ensures |lost| <= 1 && service !in lost && mapAddr == old(mapAddr) - lost
      ensures id in mapInfo && mapInfo[id].fInTried && SameRecord(old(mapInfo)[id], mapInfo[id])
      ensures forall s :: s in lost ==> IsLoneNew(EntryOf(old(mapInfo), old(mapAddr), s))
    {
      hide AddrIndex, RandomIndex, NewTable, TriedTable, Counts, Fields, CollisionsOk, SameRecord, Survives, IsLoneNew,
           Without;
      lost := MakeTried(id);
      SurvivorsKept(old(mapInfo), mapInfo, old(mapAddr), mapAddr, lost, {id});
      LostFacts(old(mapInfo), old(mapInfo), mapInfo, old(mapAddr), mapAddr, lost, id);
      CollisionsPromote(env, old(mapInfo), mapInfo, old(vvTried), id, nIdCount, triedCollisions);
    }

    method Attempt(service: Service, fCountFailure: bool, time: int)
      requires Valid() && time > 0
      modifies this`mapInfo
      ensures Valid() && SameIndexed(old(mapInfo), mapInfo)
      ensures OneUpdated(old(mapInfo), mapInfo, mapAddr, service)
      ensures service in mapAddr ==>
                var before, after := old(mapInfo)[mapAddr[service]], mapInfo[mapAddr[service]];
                after == if fCountFailure && before.lastCountAttempt < lastGood
                         then before.(lastTry := time, lastCountAttempt := time, nAttempts := before.nAttempts + 1)
                         else before.(lastTry := time)
    {
      hide AddrIndex, RandomIndex, NewTable, TriedTable, Counts, Fields, CollisionsOk;
      var found, id := Find(service);
      if !found {
        return;
      }
      var info := mapInfo[id].(lastTry := time);
      if fCountFailure && info.lastCountAttempt < lastGood {
        info := info.(lastCountAttempt := time, nAttempts := info.nAttempts + 1);
      }
      CollisionsFrame(env, mapInfo, mapInfo[id := info], vvTried, nIdCount, triedCollisions);
      SetRecord(id, info, {});
    }

    method Connected(service: Service, time: int)
      requires Valid()
      modifies this`mapInfo
      ensures Valid() && SameIndexed(old(mapInfo), mapInfo)
      ensures OneUpdated(old(mapInfo), mapInfo, mapAddr, service)
      ensures service in mapAddr ==>
                var before, after := old(mapInfo)[mapAddr[service]], mapInfo[mapAddr[service]];
                after == if time - before.addr.nTime > 20 * MINUTE then before.(addr := before.addr.(nTime := time))
                  else before
    {
      hide AddrIndex, RandomIndex, NewTable, TriedTable, Counts, Fields, CollisionsOk;
      var found, id := Find(service);
      if !found {
        return;
      }
      var info := mapInfo[id];
      if time - info.addr.nTime > 20 * MINUTE {
        info := info.(addr := info.addr.(nTime := time));
      }
      CollisionsFrame(env, mapInfo, mapInfo[id := info], vvTried, nIdCount, triedCollisions);
      SetRecord(id, info, {});
    }

    method SetServices(service: Service, nServices: bv64)
      requires Valid()
      modifies this`mapInfo
      ensures Valid() && SameIndexed(old(mapInfo), mapInfo)
      ensures OneUpdated(old(mapInfo), mapInfo, mapAddr, service)
      ensures service in mapAddr ==>
                var before, after := old(mapInfo)[mapAddr[service]], mapInfo[mapAddr[service]];
                after == before.(addr := before.addr.(nServices := nServices))
    {
      hide AddrIndex, RandomIndex, NewTable, TriedTable, Counts, Fields, CollisionsOk;
      var found, id := Find(service);
      if !found {
        return;
      }
      var info := mapInfo[id].(addr := mapInfo[id].addr.(nServices := nServices));
      CollisionsFrame(env, mapInfo, mapInfo[id := info], vvTried, nIdCount, triedCollisions);
      SetRecord(id, info, {});
    }

    // Last part of AddSingle: put the entry into a new slot if it is free or its occupant
    // may be overwritten; an entry left without any reference is deleted.
    method FileNew(id: int, slot: Slot, now: int) returns (inserted: bool, ghost lost: set<Service>)
      requires id in mapInfo && !mapInfo[id].fInTried && 0 <= mapInfo[id].nRefCount < NEW_BUCKETS_PER_ADDRESS
      requires Inv({}, if mapInfo[id].nRefCount == 0 then {id} else {})
      requires 0 <= slot.0 < NEW_BUCKET_COUNT && slot.1 == env.Position(true, slot.0, mapInfo[id].addr.service)
      modifies this`mapInfo, this`mapAddr, this`vRandom, this`nNew, this`netCounts, this`vvNew
      ensures Inv({}, {})
      ensures inserted <==> MayFile(old(mapInfo), old(vvNew), id, slot, now)
      ensures inserted ==>
                && id in mapInfo && vvNew == old(vvNew)[slot := id]
                && Survives(old(mapInfo), mapInfo, old(mapAddr), mapAddr, lost, {id})
      ensures !inserted ==> vvNew == old(vvNew) && lost == {}
      ensures !inserted && old(mapInfo)[id].nRefCount > 0 ==> mapInfo == old(mapInfo) && mapAddr == old(mapAddr)
      ensures !inserted && old(mapInfo)[id].nRefCount == 0 ==>
                SameButPos(old(mapInfo) - {id}, mapInfo) && mapAddr == old(mapAddr) - {old(mapInfo)[id].addr.service}
    {
      hide AddrIndex, RandomIndex, NewTable, TriedTable, Counts, Fields, Bump, Survives, OneCleared, SameButPos;
      ghost var zero: set<int> := if mapInfo[id].nRefCount == 0 then {id} else {};
      lost := {};
      inserted := slot !in vvNew;
      Unreferenced(env, mapInfo, vvNew, slot, nIdCount, zero);
      if slot in vvNew && IdAt(vvNew, slot) == id {
        return;
      }
      if !inserted {
        var existing := mapInfo[IdAt(vvNew, slot)];
        if existing.IsTerrible(now) || (existing.nRefCount > 1 && mapInfo[id].nRefCount == 0) {
          inserted := true;
        }
      }
      if inserted {
        ghost var m1, a1, t1 := mapInfo, mapAddr, vvNew;
        if slot in vvNew {
          SlotNotTried(env, mapInfo, vvNew, nIdCount, zero, slot);
        }
        ClearNew(slot, {}, zero);
        ClearedKeeps(m1, mapInfo, a1, mapAddr, t1, slot, id);
        lost := if slot in t1 && m1[t1[slot]].nRefCount == 1 then {m1[t1[slot]].addr.service} else {};
        ClearedSurvives(m1, mapInfo, a1, mapAddr, t1, slot, lost, {id});
        FiledSurvives(m1, mapInfo, a1, mapAddr, lost, id);
        FieldsWiden(env, mapInfo, nIdCount, zero, {} + {id});
        EnterNew(env, mapInfo, mapAddr, vRandom, vvNew, vvTried, nIdCount, {}, id, slot);
        CountsFrameOne(env, mapInfo, id, mapInfo[id].(nRefCount := mapInfo[id].nRefCount + 1), {}, nNew, nTried,
                       netCounts);
        mapInfo := mapInfo[id := mapInfo[id].(nRefCount := mapInfo[id].nRefCount + 1)];
        vvNew := vvNew[slot := id];
      } else if mapInfo[id].nRefCount == 0 {
        Delete(id, {}, zero);
        assert zero - {id} == {};
      }
    }

    // An offer for an address already known: refresh time and services; go on only if the
    // offer is news, the entry is new with a reference to spare, and chance allows.
    method Refresh(id: int, addr: Address, penalty: int, now: int, lucky: bool) returns (goOn: bool)
      requires Valid() && id in mapInfo && mapInfo[id].addr.service == addr.service
      requires mapInfo[id].lastTry >= 0 && mapInfo[id].lastSuccess >= 0
      requires mapInfo[id].fInTried ==> mapInfo[id].lastSuccess > 0
      modifies this`mapInfo
      ensures Valid() && mapInfo == old(mapInfo)[id := Refreshed(old(mapInfo)[id], addr, penalty, now)]
      ensures goOn <==> lucky && IsNews(mapInfo[id], addr)
    {
      hide AddrIndex, RandomIndex, NewTable, TriedTable, Counts, Fields, CollisionsOk, Both;
      var nTime := mapInfo[id].addr.nTime;
      var interval := if now - addr.nTime < DAY then HOUR else DAY;
      if nTime < addr.nTime - interval - penalty {
        nTime := Max(0, addr.nTime - penalty);
      }
      var nServices := Both(mapInfo[id].addr.nServices, addr.nServices);
      var info := mapInfo[id].(addr := mapInfo[id].addr.(nTime := nTime, nServices := nServices));
      CollisionsFrame(env, mapInfo, mapInfo[id := info], vvTried, nIdCount, triedCollisions);
      SetRecord(id, info, {});
      if addr.nTime <= info.addr.nTime || info.fInTried || info.nRefCount == NEW_BUCKETS_PER_ADDRESS {
        return false;
      }
      goOn := lucky;
    }

    // A new entry whose time carries the penalty; it has no reference yet.
    method CreateTimed(addr: Address, source: NetAddr, penalty: int) returns (id: int)
      requires Valid() && addr.service !in mapAddr && env.valid(addr.service.ip)
      modifies this`nIdCount, this`mapInfo, this`mapAddr, this`vRandom, this`nNew, this`netCounts
      ensures Inv({}, {id}) && CollisionsOk(env, mapInfo, vvTried, nIdCount, triedCollisions)
      ensures id == old(nIdCount) && id !in old(mapInfo) && mapAddr == old(mapAddr)[addr.service := id]
      ensures mapInfo == old(mapInfo)[id := FreshEntry(addr, source, penalty, |old(vRandom)|)]
    {
      hide AddrIndex, RandomIndex, NewTable, TriedTable, Counts, Fields, CollisionsOk;
      id := Create(addr, source);
      CollisionsCreate(env, old(mapInfo), mapInfo, vvTried, old(nIdCount), nIdCount, triedCollisions, id);
      var info := mapInfo[id].(addr := addr.(nTime := Max(0, addr.nTime - penalty)));
      CollisionsFrame(env, mapInfo, mapInfo[id := info], vvTried, nIdCount, triedCollisions);
      SetRecord(id, info, {id});
    }

    // One address offered by a peer.  `now` is the clock; `lucky` is the outcome of the random test
    // that an entry with N references passes once in 2^N times.
    method AddSingle(addr: Address, source: NetAddr, timePenalty: int, now: int, lucky: bool)
      returns (added: bool, ghost lost: set<Service>)
      requires Valid()
      modifies this`nIdCount, this`mapInfo, this`mapAddr, this`vRandom, this`nNew, this`netCounts, this`vvNew
      ensures Valid() && AddStep(env, old(Now()), Now(), addr, source, timePenalty, now, lucky, added)
      ensures |lost| <= 1 && addr.service !in lost
      ensures mapAddr.Keys - {addr.service} == old(mapAddr).Keys - lost - {addr.service}
      ensures forall s :: s in lost ==> IsLoneNew(EntryOf(old(mapInfo), old(mapAddr), s))
    {
      hide AddrIndex, RandomIndex, NewTable, TriedTable, Counts, Fields, CollisionsOk, SameRecord, Refreshed,
           FreshEntry, Yields, MayFile, IsNews, OthersKept;
      added, lost := false, {};
      NoneTouched(mapInfo, addr.service);
      if !env.routable(addr.service.ip) {
        return;
      }
      var penalty := if addr.service.ip == source then 0 else timePenalty;
      var found, id := Find(addr.service);
      if found {
        added, lost := AddKnown(id, addr, source, penalty, now, lucky);
      } else {
        added, lost := AddUnknown(addr, source, penalty, now);
      }
    }

    // An address that has an entry.
    method AddKnown(id: int, addr: Address, source: NetAddr, penalty: int, now: int, lucky: bool)
      returns (added: bool, ghost lost: set<Service>)
      requires Valid() && addr.service in mapAddr && id == mapAddr[addr.service]
      requires id in mapInfo && mapInfo[id].addr.service == addr.service
      requires mapInfo[id].lastTry >= 0 && mapInfo[id].lastSuccess >= 0
      requires if mapInfo[id].fInTried then mapInfo[id].lastSuccess > 0
                 else 1 <= mapInfo[id].nRefCount <= NEW_BUCKETS_PER_ADDRESS
      modifies this`mapInfo, this`mapAddr, this`vRandom, this`nNew, this`netCounts, this`vvNew
      ensures Valid() && id in mapInfo && SameRecord(Refreshed(old(mapInfo)[id], addr, penalty, now), mapInfo[id])
      ensures added <==>
                var e := Refreshed(old(mapInfo)[id], addr, penalty, now);
                && lucky && IsNews(e, addr)
                && MayFile(old(mapInfo)[id := e], old(vvNew), id, env.NewSlot(addr.service, source), now)
      ensures OthersKept(old(mapInfo), mapInfo, addr.service)
      ensures vvNew == if added then old(vvNew)[env.NewSlot(addr.service, source) := id] else old(vvNew)
      ensures |lost| <= 1 && addr.service !in lost && mapAddr == old(mapAddr) - lost && (!added ==> lost == {})
      ensures forall s :: s in lost ==> IsLoneNew(EntryOf(old(mapInfo), old(mapAddr), s))
    {
      hide AddrIndex, RandomIndex, NewTable, TriedTable, Counts, Fields, CollisionsOk, Survives, SameButPos, SameRecord,
           MayFile, OthersKept, RecordsKept, Refreshed;
      RefreshedFacts(mapInfo[id], addr, penalty, now);
      added, lost := false, {};
      SameAsItself(Refreshed(mapInfo[id], addr, penalty, now));
      var goOn := Refresh(id, addr, penalty, now, lucky);
      OneTouched(old(mapInfo), mapInfo, id, addr.service);
      if !goOn {
        return;
      }
      ghost var m1, a1 := mapInfo, mapAddr;
      added, lost := FileNew(id, env.NewSlot(addr.service, source), now);
      if added {
        FiledFacts(old(mapInfo), m1, mapInfo, old(mapAddr), a1, mapAddr, lost, id);
      }
      if !added {
        DroppedFacts(m1, mapInfo, id);
      }
      TouchedThen(old(mapInfo), m1, mapInfo, addr.service);
      CollisionsFrame(env, m1, mapInfo, vvTried, nIdCount, triedCollisions);
    }

    // An address seen for the first time.
    method AddUnknown(addr: Address, source: NetAddr, penalty: int, now: int)
      returns (added: bool, ghost lost: set<Service>)
      requires Valid() && addr.service !in mapAddr && env.valid(addr.service.ip)
      modifies this`nIdCount, this`mapInfo, this`mapAddr, this`vRandom, this`nNew, this`netCounts, this`vvNew
      ensures Valid() && (added <==> Yields(old(mapInfo), old(vvNew), env.NewSlot(addr.service, source), now))
      ensures !added ==> mapAddr == old(mapAddr) && vvNew == old(vvNew) && lost == {}
      ensures added ==> mapAddr == old(mapAddr)[addr.service := old(nIdCount)] - lost
                        && vvNew == old(vvNew)[env.NewSlot(addr.service, source) := old(nIdCount)]
                        && old(nIdCount) in mapInfo
                        && SameRecord(FreshEntry(addr, source, penalty, 0), mapInfo[old(nIdCount)])
      ensures OthersKept(old(mapInfo), mapInfo, addr.service)
      ensures |lost| <= 1 && addr.service !in lost
      ensures forall s :: s in lost ==> IsLoneNew(EntryOf(old(mapInfo), old(mapAddr), s))
    {
      hide AddrIndex, RandomIndex, NewTable, TriedTable, Counts, Fields, CollisionsOk, Survives, SameButPos,
           SameRecord, FreshEntry, OthersKept, RecordsKept;
      var slot := env.NewSlot(addr.service, source);
      Unreferenced(env, mapInfo, vvNew, slot, nIdCount, {});
      FreshFacts(addr, source, penalty, |vRandom|);
      var id := CreateTimed(addr, source, penalty);
      ghost var m1, a1 := mapInfo, mapAddr;
      OneTouched(old(mapInfo), m1, id, addr.service);
      added, lost := FileNew(id, slot, now);
      if added {
        FiledFacts(old(mapInfo), m1, mapInfo, old(mapAddr), a1, mapAddr, lost, id);
        SameRecordTrans(FreshEntry(addr, source, penalty, 0), m1[id], mapInfo[id]);
      } else {
        DroppedFacts(m1, mapInfo, id);
        assert mapAddr == old(mapAddr);
      }
      TouchedThen(old(mapInfo), m1, mapInfo, addr.service);
      CollisionsFrame(env, m1, mapInfo, vvTried, nIdCount, triedCollisions);
    }

    // `states` are those before, between and after the offers; `lucky` and `added` are what chance
    // said to each offer and whether it was filed.
    method Add(vAddr: seq<Address>, source: NetAddr, timePenalty: int, now: int)
      returns (r: bool, ghost states: seq<Tables>, ghost lucky: seq<bool>, ghost added: seq<bool>)
      requires Valid()
      modifies this`nIdCount, this`mapInfo, this`mapAddr, this`vRandom, this`nNew, this`netCounts, this`vvNew
      ensures Valid() && |states| == |vAddr| + 1 && |lucky| == |added| == |vAddr|
      ensures states[0] == old(Now()) && states[|vAddr|] == Now()
      ensures forall k {:trigger vAddr[k]} :: 0 <= k < |vAddr| ==>
                AddStep(env, states[k], states[k + 1], vAddr[k], source, timePenalty, now, lucky[k], added[k])
      ensures r <==> true in added
      ensures forall s :: s in mapAddr ==> s in old(mapAddr) || Offered(env, vAddr, s)
      ensures !r ==> mapAddr == old(mapAddr) && vvNew == old(vvNew)
      ensures r ==> exists i :: 0 <= i < |vAddr| && Filed(env, mapAddr, vvNew, vAddr[i], source)
    {
      hide AddrIndex, RandomIndex, NewTable, TriedTable, Counts, Fields, CollisionsOk, AddStep, Filed, Offered;
      var nAdded := 0;
      states, lucky, added := [Now()], [], [];
      for i := 0 to |vAddr|
        invariant Valid() && nAdded >= 0 && |states| == i + 1 && |lucky| == |added| == i
        invariant states[0] == old(Now()) && states[i] == Now()
        invariant forall k {:trigger vAddr[k]} :: 0 <= k < i ==>
                    AddStep(env, states[k], states[k + 1], vAddr[k], source, timePenalty, now, lucky[k], added[k])
        invariant nAdded > 0 <==> true in added
        invariant nAdded == 0 ==> mapAddr == old(mapAddr) && vvNew == old(vvNew)
        invariant nAdded > 0 ==> exists k :: 0 <= k < i && Filed(env, mapAddr, vvNew, vAddr[k], source)
        invariant forall s :: s in mapAddr ==> s in old(mapAddr) || Offered(env, vAddr, s)
      {
        ghost var s0 := Now();
        var chance: bool := *;
        var one, _ := AddSingle(vAddr[i], source, timePenalty, now, chance);
        StepFiles(env, s0, Now(), vAddr, i, source, timePenalty, now, chance, one);
        states, lucky, added := states + [Now()], lucky + [chance], added + [one];
        if one {
          nAdded := nAdded + 1;
        }
      }
      r := nAdded > 0;
    }

    // Random known addresses: the source's partial shuffle of vRandom.
    method GetAddr(maxAddresses: nat, maxPct: nat, network: Option<Network>, now: int)
      returns (addresses: seq<Address>, ghost ids: seq<int>)
      requires Valid()
      modifies this`mapInfo, this`vRandom
      ensures Valid() && SameButPos(old(mapInfo), mapInfo)
      ensures |addresses| <= AddrLimit(|old(vRandom)|, maxAddresses, maxPct) && |ids| == |addresses|
      ensures forall j, k :: 0 <= j < k < |ids| ==> ids[j] != ids[k]
      ensures forall k :: 0 <= k < |ids| ==>
                && ids[k] in old(mapInfo) && Chosen(env, old(mapInfo)[ids[k]], addresses[k], network, now)
                && addresses[k] == old(mapInfo)[ids[k]].addr && !old(mapInfo)[ids[k]].IsTerrible(now)
                && (network.Some? ==> env.netClass(addresses[k].service.ip) == network.value)
      ensures |addresses| < AddrLimit(|old(vRandom)|, maxAddresses, maxPct) ==>
                forall id :: id in old(mapInfo) && Eligible(env, old(mapInfo)[id], network, now) ==> id in ids
    {
      hide AddrIndex, RandomIndex, NewTable, TriedTable, Counts, Fields, CollisionsOk, AddrLimit, Eligible;
      var nNodes := AddrLimit(|vRandom|, maxAddresses, maxPct);
      addresses, ids := [], [];
      SameSame(mapInfo);
      GatheredNone(env, mapInfo, vRandom, network, now);
      var n := 0;
      while n < |vRandom| && |addresses| < nNodes
        invariant Valid() && SameButPos(old(mapInfo), mapInfo) && |vRandom| == |old(vRandom)|
        invariant 0 <= n <= |vRandom| && |ids| == |addresses| <= nNodes
        invariant Gathered(env, mapInfo, n, ids, addresses, network, now)
      {
        var pos :| n <= pos < |vRandom|;
        ghost var m1, v1 := mapInfo, vRandom;
        SwapRandom(n, pos);
        ShuffleFrame(env, m1, mapInfo, mapAddr, v1, vRandom, vvNew, vvTried, nIdCount, nNew, nTried, netCounts,
                     triedCollisions);
        ShuffleGathered(env, m1, mapInfo, v1, vRandom, n, ids, addresses, network, now);
        SameButPosTrans(old(mapInfo), m1, mapInfo);
        EntryAt(mapInfo, vRandom, n);
        var id := vRandom[n];
        var ai := mapInfo[id];
        GatherNext(env, mapInfo, vRandom, n, ids, addresses, network, now);
        if Eligible(env, ai, network, now) {
          addresses := addresses + [ai.addr];
          ids := ids + [id];
        }
        n := n + 1;
      }
      GatheredAll(env, old(mapInfo), mapInfo, vRandom, n, ids, addresses, network, now);
      ChosenFacts(env, old(mapInfo), ids, addresses, network, now);
    }

    // One pending collision: `erase` says whether it is settled.
    method ResolveOne(idNew: int, now: int) returns (erase: bool)
      requires Valid() && now > 0 && idNew in triedCollisions
      modifies this`mapInfo, this`mapAddr, this`vRandom, this`nNew, this`nTried, this`netCounts, this`vvNew,
               this`vvTried, this`lastGood, this`triedCollisions
      ensures ValidBut(idNew) && (!erase ==> Valid())
      ensures triedCollisions == old(triedCollisions) && old(vvTried).Keys <= vvTried.Keys
      ensures erase <==> Settled(env, old(mapInfo), old(vvTried), idNew, now)
      ensures erase && Replaces(env, old(mapInfo), old(vvTried), idNew, now) ==>
                idNew in mapInfo && mapInfo[idNew].fInTried && Promoted(env, old(Now()), Now(), idNew, now)
      ensures !erase || !Replaces(env, old(mapInfo), old(vvTried), idNew, now) ==> Now() == old(Now())
    {
      hide AddrIndex, RandomIndex, NewTable, TriedTable, Counts, Fields, CollisionsOk, Promoted;
      CollisionsRemove(env, mapInfo, vvTried, nIdCount, triedCollisions, idNew);
      if idNew !in mapInfo {
        return true;
      }
      var infoNew := mapInfo[idNew];
      var slot := env.TriedSlot(infoNew.addr.service);
      CollisionFacts(env, mapInfo, mapAddr, vvTried, nIdCount, triedCollisions, idNew);
      if !env.valid(infoNew.addr.service.ip) {
        return true;
      }
      if slot in vvTried {
        TriedOccupant(env, mapInfo, vvTried, nIdCount, {}, slot);
        var infoOld := mapInfo[IdAt(vvTried, slot)];
        assert mapAddr[infoNew.addr.service] == idNew;
        if now - infoOld.lastSuccess < REPLACEMENT {
          erase := true;
        } else if now - infoOld.lastTry < REPLACEMENT {
          if now - infoOld.lastTry > 60 {
            var moved, _ := Good(infoNew.addr.service, false, now);
            assert IdOf(mapAddr, infoNew.addr.service) == idNew;
            erase := true;
          } else {
            erase := false;
          }
        } else if now - infoNew.lastSuccess > TEST_WINDOW {
          var moved, _ := Good(infoNew.addr.service, false, now);
          assert IdOf(mapAddr, infoNew.addr.service) == idNew;
          erase := true;
        } else {
          erase := false;
        }
      } else {
        assert false;  // a tried slot never becomes free again
      }
    }

    // `visits` are the states in which the pending collisions were looked at.
    method ResolveCollisions(now: int) returns (ghost visits: seq<Visit>)
      requires Valid() && now > 0
      modifies this`mapInfo, this`mapAddr, this`vRandom, this`nNew, this`nTried, this`netCounts, this`vvNew,
               this`vvTried, this`lastGood, this`triedCollisions
      ensures Valid() && triedCollisions <= old(triedCollisions) && old(vvTried).Keys <= vvTried.Keys
      ensures Chained(env, old(Now()), visits, Now(), now)
      ensures forall id :: id in old(triedCollisions) <==> exists k :: 0 <= k < |visits| && visits[k].id == id
      ensures forall k :: 0 <= k < |visits| ==>
                (visits[k].id in triedCollisions <==>
                 !Settled(env, visits[k].s.m, visits[k].s.tTried, visits[k].id, now))
    {
      hide AddrIndex, RandomIndex, NewTable, TriedTable, Counts, Fields, CollisionsOk, Settled, Replaces, Chained;
      var todo := triedCollisions;
      visits := [];
      ChainedNone(env, Now(), now);
      while todo != {}
        invariant Valid() && todo <= triedCollisions <= old(triedCollisions) && old(vvTried).Keys <= vvTried.Keys
        invariant Chained(env, old(Now()), visits, Now(), now)
        invariant forall id :: id in old(triedCollisions) <==>
                    id in todo || exists k :: 0 <= k < |visits| && visits[k].id == id
        invariant forall k :: 0 <= k < |visits| ==> visits[k].id !in todo
        invariant forall k :: 0 <= k < |visits| ==>
                    (visits[k].id in triedCollisions <==>
                     !Settled(env, visits[k].s.m, visits[k].s.tTried, visits[k].id, now))
      {
        SomeElement(todo);
        var idNew :| idNew in todo;
        ghost var visit := Visit(idNew, Now());
        ReplacesSettles(env, mapInfo, vvTried, idNew, now);
        var erase := ResolveOne(idNew, now);
        ChainedNext(env, old(Now()), visits, visit, Now(), now);
        ghost var before := visits;
        visits := visits + [visit];
        assert visits[|before|] == visit && forall k :: 0 <= k < |before| ==> visits[k] == before[k];
        todo := todo - {idNew};
        if erase {
          triedCollisions := triedCollisions - {idNew};
        }
      }
    }

    // Picks any pending collision and returns the tried entry it would replace.
    method SelectTriedCollision() returns (r: Option<(Address, int)>, idNew: int)
      requires Valid()
      modifies this`triedCollisions
      ensures Valid()
      ensures old(triedCollisions) == {} ==> r == None && triedCollisions == {}
      ensures old(triedCollisions) != {} ==> idNew in old(triedCollisions)
      ensures old(triedCollisions) != {} && idNew !in mapInfo ==>
                r == None && triedCollisions == old(triedCollisions) - {idNew}
      ensures old(triedCollisions) != {} && idNew in mapInfo ==>
                var old_ := Occupant(env, mapInfo, vvTried, mapInfo[idNew].addr.service);
                && triedCollisions == old(triedCollisions)
                && old_.Some? && old_.value.fInTried && r == Some((old_.value.addr, old_.value.lastTry))
    {
      hide AddrIndex, RandomIndex, NewTable, TriedTable, Counts, Fields, CollisionsOk;
      r, idNew := None, -1;
      if triedCollisions == {} {
        return;
      }
      SomeElement(triedCollisions);
      idNew :| idNew in triedCollisions;
      if idNew !in mapInfo {
        CollisionsRemove(env, mapInfo, vvTried, nIdCount, triedCollisions, idNew);
        triedCollisions := triedCollisions - {idNew};
        return;
      }
      var slot := env.TriedSlot(mapInfo[idNew].addr.service);
      CollisionFacts(env, mapInfo, mapAddr, vvTried, nIdCount, triedCollisions, idNew);
      TriedOccupant(env, mapInfo, vvTried, nIdCount, {}, slot);
      var infoOld := mapInfo[IdAt(vvTried, slot)];  // never an empty slot
      r := Some((infoOld.addr, infoOld.lastTry));
    }

    // The source's own check never fails between public operations.
    method CheckAddrman() returns (err: int)
      requires Valid()
      ensures err == 0
    {
      hide AddrIndex, RandomIndex, NewTable, TriedTable, Counts, Fields, CollisionsOk, AddrCheck.Consistent;
      AddrCheck.AgreeingIsConsistent(env, mapInfo, mapAddr, vRandom, vvNew, vvTried, nIdCount, nNew, nTried, netCounts);
      err := AddrCheck.CheckAddrman(env, mapInfo, mapAddr, vRandom, vvNew, vvTried, nNew, nTried, netCounts);
    }

    // Any sequence of public operations keeps all indexes in agreement, at most ten
    // pending collisions, and every tried slot that was ever occupied.
    method Replay(ops: seq<Op>)
      requires Valid() && (forall i :: 0 <= i < |ops| ==> TimesPositive(ops[i]))
      modifies this
      ensures Valid() && old(vvTried).Keys <= vvTried.Keys
      ensures |triedCollisions| <= 10 && forall id :: id in mapInfo ==> mapInfo[id].nRefCount <= 8
    {
      for i := 0 to |ops|
        invariant Valid() && old(vvTried).Keys <= vvTried.Keys
      {
        Perform(ops[i]);
      }
    }

    method Perform(op: Op)
      requires Valid() && TimesPositive(op)
      modifies this
      ensures Valid() && old(vvTried).Keys <= vvTried.Keys
    {
      hide AddrIndex, RandomIndex, NewTable, TriedTable, Counts, Fields, CollisionsOk, SameButPos, SameIndexed;
      match op
      case AddOp(vAddr, source, penalty, now) => var _, _, _, _ := Add(vAddr, source, penalty, now);
      case GoodOp(service, time) => var _, _ := Good(service, true, time);
      case AttemptOp(service, count, time) => Attempt(service, count, time);
      case ConnectedOp(service, time) => Connected(service, time);
      case SetServicesOp(service, nServices) => SetServices(service, nServices);
      case ResolveOp(now) => ghost var _ := ResolveCollisions(now);
      case SelectOp => var _, _ := SelectTriedCollision();
      case GetAddrOp(maxAddresses, maxPct, network, now) => var _, _ := GetAddr(maxAddresses, maxPct, network, now);
    }
  }

  datatype Tables = Tables(m: InfoMap, a: map<Service, int>, tNew: Table, tTried: Table)

  datatype Op =
    | AddOp(vAddr: seq<Address>, source: NetAddr, penalty: int, now: int)
    | GoodOp(service: Service, time: int)
    | AttemptOp(service: Service, count: bool, time: int)
    | ConnectedOp(service: Service, time: int)
    | SetServicesOp(service: Service, nServices: bv64)
    | ResolveOp(now: int)
    | SelectOp
    | GetAddrOp(maxAddresses: nat, maxPct: nat, network: Option<Network>, now: int)

  predicate TimesPositive(op: Op) {
    match op
    case GoodOp(_, time) => time > 0
    case AttemptOp(_, _, time) => time > 0
    case ResolveOp(now) => now > 0
    case _ => true
  }

  // A new slot is free for an entry, or its occupant may be overwritten.
  ghost predicate MayFile(m: InfoMap, t: Table, id: int, slot: Slot, now: int)
    requires id in m
  {
    slot in t ==>
      && IdAt(t, slot) != id && IdAt(t, slot) in m
      && (m[IdAt(t, slot)].IsTerrible(now) || (m[IdAt(t, slot)].nRefCount > 1 && m[id].nRefCount == 0))
  }

  // An offer tells something new about an entry that may have another reference.
  predicate IsNews(info: Info, addr: Address) {
    info.addr.nTime < addr.nTime && !info.fInTried && info.nRefCount != NEW_BUCKETS_PER_ADDRESS
  }

  // The slot for an offer takes it: that of an unknown address if it yields, that of a known one if
  // also the offer is news and chance allows.
  ghost predicate Accepts(m: InfoMap, a: map<Service, int>, t: Table, slot: Slot, addr: Address, penalty: int, now: int,
                          lucky: bool)
  {
    if addr.service !in a then Yields(m, t, slot, now)
    else
      var id := IdOf(a, addr.service);
      && id in m
      && var e := Refreshed(m[id], addr, penalty, now);
      && lucky && IsNews(e, addr) && MayFile(m[id := e], t, id, slot, now)
  }

  // What one offer does: whether it is filed, where, and to whose record.
  ghost predicate AddStep(env: Env, s: Tables, s': Tables, addr: Address, source: NetAddr, timePenalty: int, now: int,
                          lucky: bool, added: bool)
  {
    var service, slot := addr.service, env.NewSlot(addr.service, source);
    var penalty := if service.ip == source then 0 else timePenalty;
    && (added <==> env.routable(service.ip) && Accepts(s.m, s.a, s.tNew, slot, addr, penalty, now, lucky))
    && (added ==> service in s'.a && s'.tNew == s.tNew[slot := s'.a[service]])
    && (!added ==> s'.a == s.a && s'.tNew == s.tNew)
    && s'.tTried == s.tTried
    && OthersKept(s.m, s'.m, service)
    && (!env.routable(service.ip) ==> s' == s)
    && (service in s.a ==> service in s'.a && s'.a[service] == s.a[service])
    && (env.routable(service.ip) && service in s'.a ==>
          var e, e' := EntryOf(s.m, s.a, service), EntryOf(s'.m, s'.a, service);
          && e'.Some?
          && (e == None ==> SameRecord(FreshEntry(addr, source, penalty, 0), e'.value))
          && (e.Some? ==> SameRecord(Refreshed(e.value, addr, penalty, now), e'.value)))
  }

  // A new slot is free for an address not seen before.
  ghost predicate Yields(m: InfoMap, t: Table, slot: Slot, now: int) {
    slot in t ==> IdAt(t, slot) in m && (m[IdAt(t, slot)].IsTerrible(now) || m[IdAt(t, slot)].nRefCount > 1)
  }

  // An entry after its address was offered again.
  function Refreshed(info: Info, addr: Address, penalty: int, now: int): Info {
    var interval := if now - addr.nTime < DAY then HOUR else DAY;
    var nTime := if info.addr.nTime < addr.nTime - interval - penalty then Max(0, addr.nTime - penalty)
                 else info.addr.nTime;
    info.(addr := info.addr.(nTime := nTime, nServices := Both(info.addr.nServices, addr.nServices)))
  }

  function Both(a: bv64, b: bv64): bv64 {
    a | b
  }

  function FreshEntry(addr: Address, source: NetAddr, penalty: int, pos: int): Info {
    Info(addr.(nTime := Max(0, addr.nTime - penalty)), source, 0, 0, 0, 0, 0, false, pos)
  }

  // A table without the slots of an entry.
  ghost function Without(t: Table, id: int): Table {
    map s | s in t && IdAt(t, s) != id :: IdAt(t, s)
  }

  // The new table after entry id went to tried: its own slots are free, and the tried entry that was
  // in the way is back in the new bucket of its own source.
  ghost function Relocated(env: Env, m: InfoMap, tNew: Table, tTried: Table, id: int): Table
    requires id in m
  {
    var slot := env.TriedSlot(m[id].addr.service);
    if slot in tTried && IdAt(tTried, slot) in m then
      var e := m[IdAt(tTried, slot)];
      Without(tNew, id)[env.NewSlot(e.addr.service, e.source) := IdAt(tTried, slot)]
    else Without(tNew, id)
  }

  // No entry appears, and those that stay keep their records.
  ghost predicate RecordsKept(m: InfoMap, m': InfoMap) {
    forall j :: j in m' ==> j in m && SameRecord(m[j], m'[j])
  }

  lemma SurvivorsKept(m: InfoMap, m': InfoMap, a: map<Service, int>, a': map<Service, int>, lost: set<Service>,
                      safe: set<int>)
    requires Survives(m, m', a, a', lost, safe)
    ensures RecordsKept(m, m')
  {
    hide SameRecord;
  }

  // An entry, just seen to work, went from new to tried.
  ghost predicate Promoted(env: Env, s: Tables, s': Tables, id: int, now: int) {
    && id in s.m && id in s'.m
    && s'.tTried == s.tTried[env.TriedSlot(s.m[id].addr.service) := id]
    && s'.tNew == Relocated(env, s.m, s.tNew, s.tTried, id)
    && RecordsKept(s.m[id := s.m[id].(lastSuccess := now, lastTry := now, nAttempts := 0)], s'.m)
  }

  lemma PromotedAfterSet(env: Env, s: Tables, s1: Tables, s': Tables, id: int, now: int)
    requires id in s.m && s1 == s.(m := s.m[id := s.m[id].(lastSuccess := now, lastTry := now, nAttempts := 0)])
    requires id in s'.m && s'.tTried == s.tTried[env.TriedSlot(s.m[id].addr.service) := id]
    requires s'.tNew == Relocated(env, s1.m, s1.tNew, s1.tTried, id) && RecordsKept(s1.m, s'.m)
    ensures Promoted(env, s, s', id, now)
  {
    hide Without, RecordsKept;
  }

  // Some slots of an entry were freed.
  ghost predicate Thinned(t: Table, t': Table, id: int) {
    && (forall s :: s in t' ==> s in t && IdAt(t', s) == IdAt(t, s))
    && (forall s :: s in t && IdAt(t, s) != id ==> s in t')
  }

  lemma NotThinned(t: Table, id: int)
    ensures Thinned(t, t, id)
  {}

  lemma ThinnedMore(t: Table, t': Table, id: int, slot: Slot)
    requires Thinned(t, t', id) && slot in t' && IdAt(t', slot) == id
    ensures Thinned(t, t' - {slot}, id)
  {}

  lemma NotSwept(env: Env, service: Service, t: Table, id: int, start: int)
    requires 0 <= start < NEW_BUCKET_COUNT
    ensures Swept(env, service, t, id, start, 0)
  {}

  lemma ThinnedOut(env: Env, m: InfoMap, t: Table, t': Table, id: int)
    requires NewTable(env, m, t') && id in m && m[id].nRefCount == 0 && Thinned(t, t', id)
    ensures t' == Without(t, id)
  {
    assert SlotsOf(t', id) == {};
    forall s | s in t' ensures IdAt(t', s) != id {
      assert s !in SlotsOf(t', id);
    }
  }

  // Only the entry of one address changes, and none if the address is unknown.
  ghost predicate OneUpdated(m: InfoMap, m': InfoMap, a: map<Service, int>, service: Service) {
    if service in a then a[service] in m && a[service] in m' && m' == m[a[service] := m'[a[service]]]
    else m' == m
  }

  // After clearing a slot: its occupant has one reference less or is gone; the others are as before.
  ghost predicate OneCleared(m: InfoMap, m': InfoMap, a: map<Service, int>, a': map<Service, int>, id: int) {
    && id in m
    && SameButPos(m - {id}, m' - {id})
    && (m[id].nRefCount == 1 ==> id !in m' && a' == a - {m[id].addr.service})
    && (m[id].nRefCount != 1 ==> id in m' && m'[id] == m[id].(nRefCount := m[id].nRefCount - 1) && a' == a)
  }

  lemma EmptyCounts(env: Env)
    ensures Counts(env, map[], {}, 0, 0, map[])
  {
    assert NewIds(map[], {}) == {};
    assert TriedIds(map[]) == {};
    forall net
      ensures CountOf(map[], net) == (|NewIdsOf(env, map[], {}, net)|, |TriedIdsOf(env, map[], net)|)
    {
      assert NewIdsOf(env, map[], {}, net) == {};
      assert TriedIdsOf(env, map[], net) == {};
    }
  }

  lemma InsertEntry(env: Env, m: InfoMap, a: map<Service, int>, v: seq<int>, tNew: Table, tTried: Table, id: int,
                    info: Info)
    requires AddrIndex(m, a) && RandomIndex(m, v) && NewTable(env, m, tNew) && TriedTable(env, m, tTried)
    requires id !in m && info.addr.service !in a
    requires info.nRefCount == 0 && !info.fInTried && info.nRandomPos == |v|
    ensures AddrIndex(m[id := info], a[info.addr.service := id])
    ensures RandomIndex(m[id := info], v + [id])
    ensures NewTable(env, m[id := info], tNew) && TriedTable(env, m[id := info], tTried)
  {
    hide AddrIndex, RandomIndex, NewTable, TriedTable;
    AddrInserted(m, a, id, info);
    RandomInserted(m, v, id, info);
    NewInserted(env, m, tNew, id, info);
    TriedInserted(env, m, tTried, id, info);
  }

  lemma AddrInserted(m: InfoMap, a: map<Service, int>, id: int, info: Info)
    requires AddrIndex(m, a) && id !in m && info.addr.service !in a
    ensures AddrIndex(m[id := info], a[info.addr.service := id])
  {}

  lemma RandomInserted(m: InfoMap, v: seq<int>, id: int, info: Info)
    requires RandomIndex(m, v) && id !in m && info.nRandomPos == |v|
    ensures RandomIndex(m[id := info], v + [id])
  {
    var v' := v + [id];
    assert forall i :: 0 <= i < |v| ==> RandomAt(v', i) == RandomAt(v, i);
  }

  lemma NewInserted(env: Env, m: InfoMap, t: Table, id: int, info: Info)
    requires NewTable(env, m, t) && id !in m && info.nRefCount == 0
    ensures NewTable(env, m[id := info], t)
  {
    assert SlotsOf(t, id) == {};
    hide SlotsOf;
  }

  lemma TriedInserted(env: Env, m: InfoMap, t: Table, id: int, info: Info)
    requires TriedTable(env, m, t) && id !in m && !info.fInTried
    ensures TriedTable(env, m[id := info], t)
  {}

  lemma PositionOf(m: InfoMap, v: seq<int>, id: int)
    requires RandomIndex(m, v) && id in m
    ensures 0 <= m[id].nRandomPos < |v| && v[m[id].nRandomPos] == id
  {
    assert RandomAt(v, m[id].nRandomPos) == id;
  }

  lemma EntryAt(m: InfoMap, v: seq<int>, i: int)
    requires RandomIndex(m, v) && 0 <= i < |v|
    ensures v[i] in m && m[v[i]].nRandomPos == i
  {
    assert RandomAt(v, i) in m;
  }

  lemma SwapPositions(m: InfoMap, v: seq<int>, p1: int, p2: int)
    requires RandomIndex(m, v) && 0 <= p1 < |v| && 0 <= p2 < |v| && p1 != p2
    ensures v[p1] in m && v[p2] in m && v[p1] != v[p2]
    ensures RandomIndex(m[v[p1] := m[v[p1]].(nRandomPos := p2)][v[p2] := m[v[p2]].(nRandomPos := p1)],
                        v[p1 := v[p2]][p2 := v[p1]])
  {
    var id1, id2 := RandomAt(v, p1), RandomAt(v, p2);
    assert id1 in m && m[id1].nRandomPos == p1 && id2 in m && m[id2].nRandomPos == p2;
    var m' := m[id1 := m[id1].(nRandomPos := p2)][id2 := m[id2].(nRandomPos := p1)];
    var v' := v[p1 := id2][p2 := id1];
    forall i | 0 <= i < |v'|
      ensures RandomAt(v', i) in m' && m'[RandomAt(v', i)].nRandomPos == i
    {
      assert i != p1 && i != p2 ==> RandomAt(v', i) == RandomAt(v, i);
    }
    forall id | id in m'
      ensures 0 <= m'[id].nRandomPos < |v'| && RandomAt(v', m'[id].nRandomPos) == id
    {
      assert id in m;
      assert RandomAt(v, m[id].nRandomPos) == id;
    }
  }

  lemma PositionsOnly(env: Env, m: InfoMap, m': InfoMap, nIdCount: int, zero: set<int>)
    requires SameButPos(m, m') && Fields(env, m, nIdCount, zero)
    ensures SameIndexed(m, m') && Fields(env, m', nIdCount, zero)
  {}

  // Dropping the entry that is last in vRandom and in neither table.
  lemma RemoveEntry(env: Env, m: InfoMap, a: map<Service, int>, v: seq<int>, tNew: Table, tTried: Table,
                    nIdCount: int, zero: set<int>, id: int)
    requires AddrIndex(m, a) && RandomIndex(m, v) && NewTable(env, m, tNew) && TriedTable(env, m, tTried)
    requires Fields(env, m, nIdCount, zero)
    requires id in m && m[id].nRefCount == 0 && !m[id].fInTried && m[id].nRandomPos == |v| - 1
    ensures AddrIndex(m - {id}, a - {m[id].addr.service})
    ensures RandomIndex(m - {id}, v[..|v| - 1])
    ensures NewTable(env, m - {id}, tNew) && TriedTable(env, m - {id}, tTried)
    ensures Fields(env, m - {id}, nIdCount, zero - {id})
  {
    hide AddrIndex, RandomIndex, NewTable, TriedTable;
    AddrRemoved(m, a, id);
    RandomRemoved(m, v, id);
    NewRemoved(env, m, tNew, id);
    TriedRemoved(env, m, tTried, id);
  }

  lemma AddrRemoved(m: InfoMap, a: map<Service, int>, id: int)
    requires AddrIndex(m, a) && id in m
    ensures AddrIndex(m - {id}, a - {m[id].addr.service})
  {}

  lemma RandomRemoved(m: InfoMap, v: seq<int>, id: int)
    requires RandomIndex(m, v) && id in m && m[id].nRandomPos == |v| - 1
    ensures RandomIndex(m - {id}, v[..|v| - 1])
  {
    var v' := v[..|v| - 1];
    assert forall i :: 0 <= i < |v'| ==> RandomAt(v', i) == RandomAt(v, i);
  }

  lemma NewRemoved(env: Env, m: InfoMap, t: Table, id: int)
    requires NewTable(env, m, t) && id in m && m[id].nRefCount == 0
    ensures NewTable(env, m - {id}, t)
  {
    forall s | s in t ensures IdAt(t, s) != id {
      SlotCounted(env, m, t, s);
    }
  }

  lemma TriedRemoved(env: Env, m: InfoMap, t: Table, id: int)
    requires TriedTable(env, m, t) && id in m && !m[id].fInTried
    ensures TriedTable(env, m - {id}, t)
  {}

  // The same after the entry was swapped to the end of vRandom.
  lemma RemoveLast(env: Env, m0: InfoMap, m: InfoMap, a: map<Service, int>, v: seq<int>, tNew: Table, tTried: Table,
                   nIdCount: int, zero: set<int>, id: int)
    requires AddrIndex(m0, a) && NewTable(env, m0, tNew) && TriedTable(env, m0, tTried)
    requires Fields(env, m0, nIdCount, zero)
    requires SameButPos(m0, m) && RandomIndex(m, v)
    requires id in m && m[id].nRefCount == 0 && !m[id].fInTried && m[id].nRandomPos == |v| - 1
    ensures AddrIndex(m - {id}, a - {m[id].addr.service})
    ensures RandomIndex(m - {id}, v[..|v| - 1])
    ensures NewTable(env, m - {id}, tNew) && TriedTable(env, m - {id}, tTried)
    ensures Fields(env, m - {id}, nIdCount, zero - {id})
    ensures SameButPos(m0 - {id}, m - {id})
  {
    hide AddrIndex, NewTable, TriedTable, RandomIndex, Fields;
    PositionsOnly(env, m0, m, nIdCount, zero);
    TablesFrame(env, m0, m, a, tNew, tTried);
    RemoveEntry(env, m, a, v, tNew, tTried, nIdCount, zero, id);
  }

  lemma CountsRemove(env: Env, m0: InfoMap, m: InfoMap, limbo: set<int>, nNew: int, nTried: int, counts: NetCounts,
                     id: int)
    requires Counts(env, m0, limbo, nNew, nTried, counts) && SameButPos(m0, m)
    requires id in m && !m[id].fInTried && id !in limbo
    ensures Counts(env, m - {id}, limbo, nNew - 1, nTried, Bump(counts, env.network(m[id].addr.service.ip), -1, 0))
  {
    hide Counts, Bump;
    CountsFrame(env, m0, m, limbo, nNew, nTried, counts);
    CountsDelta(env, m, m - {id}, limbo, limbo, id, env.network(m[id].addr.service.ip), nNew, nTried, counts);
  }

  lemma SlotCounted(env: Env, m: InfoMap, t: Table, slot: Slot)
    requires NewTable(env, m, t) && slot in t
    ensures IdAt(t, slot) in m && m[IdAt(t, slot)].nRefCount >= 1
  {
    var id := IdAt(t, slot);
    assert id in m && slot in SlotsOf(t, id);
  }

  lemma ClearSlot(env: Env, m: InfoMap, a: map<Service, int>, v: seq<int>, tNew: Table, tTried: Table, slot: Slot)
    requires AddrIndex(m, a) && RandomIndex(m, v) && NewTable(env, m, tNew) && TriedTable(env, m, tTried)
    requires slot in tNew && IdAt(tNew, slot) in m
    ensures var id := IdAt(tNew, slot); var m' := m[id := m[id].(nRefCount := m[id].nRefCount - 1)];
            AddrIndex(m', a) && RandomIndex(m', v) && NewTable(env, m', tNew - {slot}) && TriedTable(env, m', tTried)
  {
    hide AddrIndex, RandomIndex, NewTable, TriedTable;
    var id := IdAt(tNew, slot);
    var info := m[id].(nRefCount := m[id].nRefCount - 1);
    RefiledFrame(m, a, v, id, info);
    TriedFrame(env, m, tTried, id, info);
    NewSlotCleared(env, m, tNew, slot);
  }

  lemma NewSlotCleared(env: Env, m: InfoMap, t: Table, slot: Slot)
    requires NewTable(env, m, t) && slot in t && IdAt(t, slot) in m
    ensures var id := IdAt(t, slot); NewTable(env, m[id := m[id].(nRefCount := m[id].nRefCount - 1)], t - {slot})
  {
    hide SlotsOf;
    SlotsRemove(t, slot);
    assert forall s :: s in t - {slot} ==> IdAt(t - {slot}, s) == IdAt(t, s);
  }

  // Changing fields of one entry that no count depends on.
  lemma CountsFrameOne(env: Env, m: InfoMap, id: int, info: Info, limbo: set<int>, nNew: int, nTried: int,
                       counts: NetCounts)
    requires Counts(env, m, limbo, nNew, nTried, counts)
    requires id in m && info.fInTried == m[id].fInTried && info.addr.service == m[id].addr.service
    ensures Counts(env, m[id := info], limbo, nNew, nTried, counts)
  {
    var m' := m[id := info];
    assert forall x :: x in m <==> x in m';
    assert forall x :: x in m ==> m'[x].fInTried == m[x].fInTried && m'[x].addr.service == m[x].addr.service;
    assert NewIds(m', limbo) == NewIds(m, limbo);
    assert TriedIds(m') == TriedIds(m);
    forall net
      ensures CountOf(counts, net) == (|NewIdsOf(env, m', limbo, net)|, |TriedIdsOf(env, m', net)|)
    {
      assert NewIdsOf(env, m', limbo, net) == NewIdsOf(env, m, limbo, net);
      assert TriedIdsOf(env, m', net) == TriedIdsOf(env, m, net);
    }
  }

  lemma FieldsShrink(env: Env, m: InfoMap, nIdCount: int, zero: set<int>, zero': set<int>, id: int)
    requires Fields(env, m, nIdCount, zero) && id !in m && zero <= zero' + {id}
    ensures Fields(env, m, nIdCount, zero')
  {}
  lemma FieldsWiden(env: Env, m: InfoMap, nIdCount: int, zero: set<int>, zero': set<int>)
    requires Fields(env, m, nIdCount, zero) && zero <= zero'
    ensures Fields(env, m, nIdCount, zero')
  {}

  // None of the first n buckets, counted from `start`, holds the id.
  ghost predicate Swept(env: Env, service: Service, t: Table, id: int, start: int, n: int) {
    forall b :: 0 <= b < NEW_BUCKET_COUNT && (b - start) % NEW_BUCKET_COUNT < n ==>
      !((b, env.Position(true, b, service)) in t && IdAt(t, (b, env.Position(true, b, service))) == id)
  }

  lemma BucketIndex(b: int, start: int, n: int)
    requires 0 <= b < NEW_BUCKET_COUNT && 0 <= start < NEW_BUCKET_COUNT && 0 <= n < NEW_BUCKET_COUNT
    ensures (b - start) % NEW_BUCKET_COUNT == n <==> b == (start + n) % NEW_BUCKET_COUNT
  {}

  lemma SweptNext(env: Env, service: Service, t: Table, id: int, start: int, n: int)
    requires Swept(env, service, t, id, start, n) && 0 <= start < NEW_BUCKET_COUNT && 0 <= n < NEW_BUCKET_COUNT
    requires var b := (start + n) % NEW_BUCKET_COUNT; var slot := (b, env.Position(true, b, service));
             !(slot in t && IdAt(t, slot) == id)
    ensures Swept(env, service, t, id, start, n + 1)
  {
    forall b | 0 <= b < NEW_BUCKET_COUNT && (b - start) % NEW_BUCKET_COUNT < n + 1
      ensures !((b, env.Position(true, b, service)) in t && IdAt(t, (b, env.Position(true, b, service))) == id)
    {
      BucketIndex(b, start, n);
    }
  }

  lemma SweptDrop(env: Env, service: Service, t: Table, id: int, start: int, n: int, slot: Slot)
    requires Swept(env, service, t, id, start, n) && 0 <= start < NEW_BUCKET_COUNT && 0 <= n < NEW_BUCKET_COUNT
    requires var b := (start + n) % NEW_BUCKET_COUNT; slot == (b, env.Position(true, b, service))
    ensures Swept(env, service, t - {slot}, id, start, n + 1)
  {
    forall b | 0 <= b < NEW_BUCKET_COUNT && (b - start) % NEW_BUCKET_COUNT < n + 1
      ensures !((b, env.Position(true, b, service)) in t - {slot}
                && IdAt(t - {slot}, (b, env.Position(true, b, service))) == id)
    {
      BucketIndex(b, start, n);
    }
  }

  // A full sweep leaves no reference, wherever it started.
  lemma NoReferences(env: Env, m: InfoMap, t: Table, id: int, start: int)
    requires NewTable(env, m, t) && id in m
    requires Swept(env, m[id].addr.service, t, id, start, NEW_BUCKET_COUNT)
    ensures m[id].nRefCount == 0
  {
    forall s | s in t ensures IdAt(t, s) != id {
      var b := s.0;
      assert s == (b, s.1);
      assert (b - start) % NEW_BUCKET_COUNT < NEW_BUCKET_COUNT;
    }
    assert SlotsOf(t, id) == {};
  }

  // One reference of an entry goes; all indexes follow.
  lemma DropReference(env: Env, m: InfoMap, a: map<Service, int>, v: seq<int>, tNew: Table, tTried: Table,
                      nIdCount: int, nNew: int, nTried: int, counts: NetCounts, id: int, slot: Slot)
    requires AddrIndex(m, a) && RandomIndex(m, v) && NewTable(env, m, tNew) && TriedTable(env, m, tTried)
    requires Fields(env, m, nIdCount, {id}) && Counts(env, m, {}, nNew, nTried, counts)
    requires slot in tNew && IdAt(tNew, slot) == id && id in m && !m[id].fInTried
    ensures var m' := m[id := m[id].(nRefCount := m[id].nRefCount - 1)];
            && AddrIndex(m', a) && RandomIndex(m', v) && NewTable(env, m', tNew - {slot}) && TriedTable(env, m', tTried)
            && Fields(env, m', nIdCount, {id}) && Counts(env, m', {}, nNew, nTried, counts)
  {
    hide AddrIndex, RandomIndex, NewTable, TriedTable, Counts;
    SlotCounted(env, m, tNew, slot);
    ClearSlot(env, m, a, v, tNew, tTried, slot);
    CountsFrameOne(env, m, id, m[id].(nRefCount := m[id].nRefCount - 1), {}, nNew, nTried, counts);
  }

  // The counts after one entry changed its table, with its own network's counts adjusted.
  lemma CountsMove(env: Env, m: InfoMap, m': InfoMap, limbo: set<int>, limbo': set<int>, id: int,
                   nNew: int, nTried: int, counts: NetCounts)
    requires Counts(env, m, limbo, nNew, nTried, counts)
    requires id in m && id in m' && m'[id].addr.service == m[id].addr.service
    requires m' == m[id := m'[id]] && limbo - {id} == limbo' - {id}
    ensures var k, j := New1(m', limbo', id) - New1(m, limbo, id), Tried1(m', id) - Tried1(m, id);
            Counts(env, m', limbo', nNew + k, nTried + j, Bump(counts, env.network(m[id].addr.service.ip), k, j))
  {
    hide Counts, Bump;
    assert m' - {id} == m - {id};
    CountsDelta(env, m, m', limbo, limbo', id, env.network(m[id].addr.service.ip), nNew, nTried, counts);
  }

  // What an entry says about its address, as opposed to where it is filed.
  ghost predicate SameRecord(i: Info, i': Info) {
    i' == i.(nRefCount := i'.nRefCount, fInTried := i'.fInTried, nRandomPos := i'.nRandomPos)
  }

  lemma SameRecordTrans(i: Info, i': Info, i'': Info)
    requires SameRecord(i, i') && SameRecord(i', i'')
    ensures SameRecord(i, i'')
  {}

  lemma FreshFacts(addr: Address, source: NetAddr, penalty: int, pos: int)
    ensures var e := FreshEntry(addr, source, penalty, pos);
            && e.addr.service == addr.service && e.nRefCount == 0 && !e.fInTried
            && SameRecord(FreshEntry(addr, source, penalty, 0), e)
  {}

  lemma SameAsItself(i: Info)
    ensures SameRecord(i, i)
  {}

  // Entries keep their records, and at most one address, whose entry is not among `safe`
  // and had a single reference in new, is lost.
  ghost predicate Survives(m: InfoMap, m': InfoMap, a: map<Service, int>, a': map<Service, int>, lost: set<Service>,
                           safe: set<int>) {
    && |lost| <= 1
    && (forall s :: s in lost ==>
        s in a && IdOf(a, s) in m && IdOf(a, s) !in safe && !m[IdOf(a, s)].fInTried && m[IdOf(a, s)].nRefCount == 1)
    && a' == a - lost
    && (forall id :: id in m' ==> id in m && SameRecord(m[id], m'[id]))
    && (forall id :: id in m ==> (id in m' <==> m[id].addr.service !in lost))
  }

  lemma NothingLost(m: InfoMap, a: map<Service, int>, safe: set<int>)
    ensures Survives(m, m, a, a, {}, safe)
  {}

  lemma MovedSurvives(m0: InfoMap, m1: InfoMap, m2: InfoMap, a: map<Service, int>, a': map<Service, int>,
                      lost: set<Service>, safe: set<int>, id: int)
    requires id in m0 && m1 == m0[id := m0[id].(nRefCount := 0)]
    requires Survives(m1, m2, a, a', lost, safe) && id in safe && id in m2
    ensures Survives(m0, m2[id := m2[id].(fInTried := true)], a, a', lost, {id})
  {}

  lemma EvictedSurvives(m0: InfoMap, m2: InfoMap, a: map<Service, int>, a': map<Service, int>, lost: set<Service>,
                        safe: set<int>, e: int)
    requires e in m0 && e in safe && Survives(m0[e := m0[e].(fInTried := false)], m2, a, a', lost, safe)
    ensures Survives(m0, m2, a, a', lost, safe)
  {}

  lemma RefiledSurvives(m1: InfoMap, m2: InfoMap, a: map<Service, int>, a': map<Service, int>, lost: set<Service>,
                        safe: set<int>, e: int)
    requires Survives(m1, m2, a, a', lost, safe) && e in m2
    ensures Survives(m1, m2[e := m2[e].(nRefCount := 1)], a, a', lost, safe)
  {}

  lemma TriedOccupant(env: Env, m: InfoMap, t: Table, nIdCount: int, zero: set<int>, slot: Slot)
    requires TriedTable(env, m, t) && slot in t && Fields(env, m, nIdCount, zero)
    ensures IdAt(t, slot) in m && m[IdAt(t, slot)].fInTried && env.TriedSlot(m[IdAt(t, slot)].addr.service) == slot
    ensures m[IdAt(t, slot)].nRefCount == 0
  {}

  lemma TakeFromTried(env: Env, m: InfoMap, a: map<Service, int>, v: seq<int>, tNew: Table, tTried: Table,
                      nIdCount: int, slot: Slot, nId: int)
    requires AddrIndex(m, a) && RandomIndex(m, v) && NewTable(env, m, tNew) && TriedTable(env, m, tTried)
    requires Fields(env, m, nIdCount, {nId})
    requires slot in tTried && IdAt(tTried, slot) in m
    ensures var e := IdAt(tTried, slot); var m' := m[e := m[e].(fInTried := false)];
            && AddrIndex(m', a) && RandomIndex(m', v) && NewTable(env, m', tNew) && TriedTable(env, m', tTried - {slot})
            && Fields(env, m', nIdCount, {nId, e})
  {
    hide AddrIndex, RandomIndex, NewTable, TriedTable;
    var e := IdAt(tTried, slot);
    var info := m[e].(fInTried := false);
    RefiledFrame(m, a, v, e, info);
    NewFrame(env, m, tNew, e, info);
    TriedSlotCleared(env, m, tTried, slot);
  }

  lemma TriedSlotCleared(env: Env, m: InfoMap, t: Table, slot: Slot)
    requires TriedTable(env, m, t) && slot in t && IdAt(t, slot) in m
    ensures var e := IdAt(t, slot); TriedTable(env, m[e := m[e].(fInTried := false)], t - {slot})
  {
    assert forall s :: s in t - {slot} ==> IdAt(t - {slot}, s) == IdAt(t, s);
  }

  // A slot's occupant has a reference, so it is not an entry between two homes.
  lemma Unreferenced(env: Env, m: InfoMap, t: Table, slot: Slot, nIdCount: int, zero: set<int>)
    requires NewTable(env, m, t) && Fields(env, m, nIdCount, zero)
    ensures slot in t ==> IdAt(t, slot) in m && m[IdAt(t, slot)].nRefCount >= 1 && !m[IdAt(t, slot)].fInTried
  {
    if slot in t {
      SlotCounted(env, m, t, slot);
    }
  }

  lemma ClearedSurvives(m: InfoMap, m': InfoMap, a: map<Service, int>, a': map<Service, int>, t: Table, slot: Slot,
                        lost: set<Service>, safe: set<int>)
    requires AddrIndex(m, a)
    requires slot !in t ==> m' == m && a' == a
    requires slot in t ==> OneCleared(m, m', a, a', t[slot]) && !m[t[slot]].fInTried
    requires lost == if slot in t && m[t[slot]].nRefCount == 1 then {m[t[slot]].addr.service} else {}
    requires slot in t ==> t[slot] !in safe
    ensures Survives(m, m', a, a', lost, safe)
  {
    if slot in t {
      var d := t[slot];
      forall id | id != d && (id in m || id in m') ensures id in m && id in m' && SameRecord(m[id], m'[id]) {
        assert id in m' - {d} <==> id in m';
        assert id in m - {d} <==> id in m;
        assert id in m - {d} <==> id in m' - {d};
        assert (m - {d})[id] == m[id] && (m' - {d})[id] == m'[id];
      }
    }
  }

  lemma ClearedKeeps(m: InfoMap, m': InfoMap, a: map<Service, int>, a': map<Service, int>, t: Table, slot: Slot,
                     id: int)
    requires slot !in t ==> m' == m && a' == a
    requires slot in t ==> OneCleared(m, m', a, a', t[slot]) && t[slot] != id
    requires id in m
    ensures id in m' && m'[id] == m[id].(nRandomPos := m'[id].nRandomPos)
  {
    if slot in t {
      assert id in m - {t[slot]};
    }
  }

  // Changing where an entry is filed leaves the address and position indexes alone.
  lemma RefiledFrame(m: InfoMap, a: map<Service, int>, v: seq<int>, id: int, info: Info)
    requires AddrIndex(m, a) && RandomIndex(m, v) && id in m
    requires info.addr.service == m[id].addr.service && info.nRandomPos == m[id].nRandomPos
    ensures AddrIndex(m[id := info], a) && RandomIndex(m[id := info], v)
  {}

  lemma TriedFrame(env: Env, m: InfoMap, t: Table, id: int, info: Info)
    requires TriedTable(env, m, t) && id in m
    requires info.addr.service == m[id].addr.service && info.fInTried == m[id].fInTried
    ensures TriedTable(env, m[id := info], t)
  {}

  lemma NewFrame(env: Env, m: InfoMap, t: Table, id: int, info: Info)
    requires NewTable(env, m, t) && id in m
    requires info.addr.service == m[id].addr.service && info.nRefCount == m[id].nRefCount
    ensures NewTable(env, m[id := info], t)
  {
    hide SlotsOf;
  }

  lemma NewSlotFilled(env: Env, m: InfoMap, t: Table, id: int, slot: Slot)
    requires NewTable(env, m, t) && id in m && slot !in t
    requires 0 <= slot.0 < NEW_BUCKET_COUNT && slot.1 == env.Position(true, slot.0, m[id].addr.service)
    ensures NewTable(env, m[id := m[id].(nRefCount := m[id].nRefCount + 1)], t[slot := id])
  {
    SlotsAdd(t, slot, id);
    assert forall s :: s in t ==> IdAt(t[slot := id], s) == IdAt(t, s);
  }

  lemma EnterNew(env: Env, m: InfoMap, a: map<Service, int>, v: seq<int>, tNew: Table, tTried: Table, nIdCount: int,
                 zero: set<int>, id: int, slot: Slot)
    requires AddrIndex(m, a) && RandomIndex(m, v) && NewTable(env, m, tNew) && TriedTable(env, m, tTried)
    requires Fields(env, m, nIdCount, zero + {id})
    requires id in m && !m[id].fInTried && m[id].nRefCount < NEW_BUCKETS_PER_ADDRESS && slot !in tNew
    requires 0 <= slot.0 < NEW_BUCKET_COUNT && slot.1 == env.Position(true, slot.0, m[id].addr.service)
    ensures var m' := m[id := m[id].(nRefCount := m[id].nRefCount + 1)];
            && AddrIndex(m', a) && RandomIndex(m', v) && NewTable(env, m', tNew[slot := id])
            && TriedTable(env, m', tTried)
            && Fields(env, m', nIdCount, zero)
  {
    hide AddrIndex, RandomIndex, NewTable, TriedTable;
    var info := m[id].(nRefCount := m[id].nRefCount + 1);
    RefiledFrame(m, a, v, id, info);
    TriedFrame(env, m, tTried, id, info);
    NewSlotFilled(env, m, tNew, id, slot);
  }

  lemma EnterTried(env: Env, m: InfoMap, a: map<Service, int>, v: seq<int>, tNew: Table, tTried: Table,
                   nIdCount: int, id: int, slot: Slot)
    requires AddrIndex(m, a) && RandomIndex(m, v) && NewTable(env, m, tNew) && TriedTable(env, m, tTried)
    requires Fields(env, m, nIdCount, {id})
    requires id in m && !m[id].fInTried && m[id].nRefCount == 0 && m[id].lastSuccess > 0
    requires slot !in tTried && slot == env.TriedSlot(m[id].addr.service)
    ensures var m' := m[id := m[id].(fInTried := true)];
            && AddrIndex(m', a) && RandomIndex(m', v) && NewTable(env, m', tNew)
            && TriedTable(env, m', tTried[slot := id])
            && Fields(env, m', nIdCount, {})
  {
    hide AddrIndex, RandomIndex, NewTable, TriedTable;
    var info := m[id].(fInTried := true);
    RefiledFrame(m, a, v, id, info);
    NewFrame(env, m, tNew, id, info);
    TriedSlotFilled(env, m, tTried, id, slot);
  }

  lemma TriedSlotFilled(env: Env, m: InfoMap, t: Table, id: int, slot: Slot)
    requires TriedTable(env, m, t) && id in m && slot !in t && slot == env.TriedSlot(m[id].addr.service)
    ensures TriedTable(env, m[id := m[id].(fInTried := true)], t[slot := id])
  {
    assert forall s :: s in t ==> IdAt(t[slot := id], s) == IdAt(t, s);
  }

  ghost predicate EnvOk(env: Env) {
    && !env.keyIsNull
    && forall ip :: env.routable(ip) ==> env.valid(ip)
  }

  // A collision id that still exists has its tried slot occupied by another entry.
  ghost predicate CollisionsOk(env: Env, m: InfoMap, tTried: Table, nIdCount: int, collisions: set<int>) {
    forall id :: id in collisions ==>
      && 0 <= id < nIdCount
      && (id in m ==> var slot := env.TriedSlot(m[id].addr.service); slot in tTried && IdAt(tTried, slot) != id)
  }

  // Entries keep their addresses and ids are not reused.
  lemma CollisionsFrame(env: Env, m: InfoMap, m': InfoMap, t: Table, nIdCount: int, collisions: set<int>)
    requires CollisionsOk(env, m, t, nIdCount, collisions)
    requires forall id :: id in m' ==> id in m && m'[id].addr.service == m[id].addr.service
    ensures CollisionsOk(env, m', t, nIdCount, collisions)
  {}

  // A tried slot may be taken over by another entry, whose own collision is then settled.
  lemma CollisionsPromote(env: Env, m: InfoMap, m': InfoMap, t: Table, id: int, nIdCount: int, collisions: set<int>)
    requires CollisionsOk(env, m, t, nIdCount, collisions) && id in m
    requires forall x :: x in m' ==> x in m && m'[x].addr.service == m[x].addr.service
    ensures CollisionsOk(env, m', t[env.TriedSlot(m[id].addr.service) := id], nIdCount, collisions - {id})
  {}

  lemma CollisionsAdd(env: Env, m: InfoMap, t: Table, nIdCount: int, collisions: set<int>, id: int)
    requires CollisionsOk(env, m, t, nIdCount, collisions) && TriedTable(env, m, t)
    requires 0 <= id < nIdCount && id in m && !m[id].fInTried && env.TriedSlot(m[id].addr.service) in t
    ensures CollisionsOk(env, m, t, nIdCount, collisions + {id})
  {}

  // An entry whose tried slot is free has no collision.
  lemma NoCollision(env: Env, m: InfoMap, t: Table, nIdCount: int, collisions: set<int>, id: int)
    requires CollisionsOk(env, m, t, nIdCount, collisions) && id in m && env.TriedSlot(m[id].addr.service) !in t
    ensures collisions - {id} == collisions
  {}

  ghost function EntryOf(m: InfoMap, a: map<Service, int>, s: Service): Option<Info> {
    if s in a && IdOf(a, s) in m then Some(m[IdOf(a, s)]) else None
  }

  ghost predicate IsNew(e: Option<Info>) {
    e.Some? && !e.value.fInTried
  }

  ghost predicate IsLoneNew(e: Option<Info>) {
    IsNew(e) && e.value.nRefCount == 1
  }

  lemma SameIndexedSelf(m: InfoMap)
    ensures SameIndexed(m, m)
  {}

  lemma SameIndexedOne(m: InfoMap, id: int, info: Info)
    requires id in m && info.addr.service == m[id].addr.service
    requires info.nRefCount == m[id].nRefCount && info.fInTried == m[id].fInTried
    ensures SameIndexed(m, m[id := info])
  {}

  // A change of times in one record does not matter to which entries are lone.
  lemma LoneFrame(m0: InfoMap, m: InfoMap, a: map<Service, int>, id: int, lost: set<Service>)
    requires id in m0 && id in m && m == m0[id := m[id]]
    requires m[id].fInTried == m0[id].fInTried && m[id].nRefCount == m0[id].nRefCount
    requires forall s :: s in lost ==> IsLoneNew(EntryOf(m, a, s))
    ensures forall s :: s in lost ==> IsLoneNew(EntryOf(m0, a, s))
  {}

  lemma LostFacts(m0: InfoMap, m: InfoMap, m': InfoMap, a: map<Service, int>, a': map<Service, int>,
                  lost: set<Service>, id: int)
    requires Survives(m, m', a, a', lost, {id}) && AddrIndex(m, a)
    requires id in m && id in m0 && m == m0[id := m[id]]
    ensures |lost| <= 1 && m[id].addr.service !in lost && a' == a - lost
    ensures forall s :: s in lost ==> IsLoneNew(EntryOf(m0, a, s))
    ensures forall x :: x in m' ==> x in m && m'[x].addr.service == m[x].addr.service
    ensures m[id].addr.service in a' && a'[m[id].addr.service] == id
    ensures id in m' ==> SameRecord(m[id], m'[id])
  {
    assert forall x :: x in m' ==> SameRecord(m[x], m'[x]);
    assert IdOf(a, m[id].addr.service) == id;
  }

  lemma RecordFrame(env: Env, m: InfoMap, a: map<Service, int>, v: seq<int>, tNew: Table, tTried: Table, id: int,
                    info: Info)
    requires AddrIndex(m, a) && RandomIndex(m, v) && NewTable(env, m, tNew) && TriedTable(env, m, tTried)
    requires id in m && info.addr.service == m[id].addr.service && info.nRefCount == m[id].nRefCount
    requires info.fInTried == m[id].fInTried && info.nRandomPos == m[id].nRandomPos
    ensures var m' := m[id := info];
            AddrIndex(m', a) && RandomIndex(m', v) && NewTable(env, m', tNew) && TriedTable(env, m', tTried)
  {
    hide AddrIndex, RandomIndex, NewTable, TriedTable;
    RefiledFrame(m, a, v, id, info);
    TablesFrame(env, m, m[id := info], a, tNew, tTried);
  }

  lemma SlotNotTried(env: Env, m: InfoMap, t: Table, nIdCount: int, zero: set<int>, slot: Slot)
    requires NewTable(env, m, t) && slot in t && Fields(env, m, nIdCount, zero)
    ensures IdAt(t, slot) in m && !m[IdAt(t, slot)].fInTried
  {
    SlotCounted(env, m, t, slot);
  }

  lemma FiledSurvives(m: InfoMap, m': InfoMap, a: map<Service, int>, a': map<Service, int>, lost: set<Service>, id: int)
    requires Survives(m, m', a, a', lost, {id}) && id in m'
    ensures Survives(m, m'[id := m'[id].(nRefCount := m'[id].nRefCount + 1)], a, a', lost, {id})
  {}

  // Filing an entry that was just created or refreshed: who is lost, seen from before.
  lemma FiledFacts(m0: InfoMap, m1: InfoMap, m2: InfoMap, a0: map<Service, int>, a1: map<Service, int>,
                   a2: map<Service, int>, lost: set<Service>, id: int)
    requires Survives(m1, m2, a1, a2, lost, {id}) && AddrIndex(m1, a1)
    requires id in m1 && m1 == m0[id := m1[id]] && a1 == a0[m1[id].addr.service := id]
    ensures |lost| <= 1 && m1[id].addr.service !in lost && a2 == a1 - lost
    ensures forall s :: s in lost ==> IsLoneNew(EntryOf(m0, a0, s))
    ensures forall x :: x in m2 ==> x in m1 && m2[x].addr.service == m1[x].addr.service
    ensures RecordsKept(m1, m2) && (id in m2 ==> SameRecord(m1[id], m2[id]))
  {
    assert forall x :: x in m2 ==> SameRecord(m1[x], m2[x]);
    assert IdOf(a1, m1[id].addr.service) == id;
    assert forall s :: s in lost ==> IdOf(a0, s) == IdOf(a1, s);
  }

  lemma DroppedFacts(m1: InfoMap, m2: InfoMap, id: int)
    requires m2 == m1 || SameButPos(m1 - {id}, m2)
    ensures forall x :: x in m2 ==> x in m1 && m2[x].addr.service == m1[x].addr.service
    ensures RecordsKept(m1, m2)
  {
    if m2 != m1 {
      assert forall x :: x in m2 ==> x in m1 - {id};
    }
  }

  // Entries of other addresses keep their records; none appears.
  ghost predicate OthersKept(m: InfoMap, m': InfoMap, service: Service) {
    forall j :: j in m' && m'[j].addr.service != service ==> j in m && SameRecord(m[j], m'[j])
  }

  lemma NoneTouched(m: InfoMap, service: Service)
    ensures OthersKept(m, m, service)
  {}

  lemma OneTouched(m: InfoMap, m': InfoMap, id: int, service: Service)
    requires id in m' && m' == m[id := m'[id]] && m'[id].addr.service == service
    ensures OthersKept(m, m', service)
  {}

  lemma TouchedThen(m: InfoMap, m1: InfoMap, m2: InfoMap, service: Service)
    requires OthersKept(m, m1, service) && RecordsKept(m1, m2)
    ensures OthersKept(m, m2, service)
  {
    forall j | j in m2 && m2[j].addr.service != service ensures j in m && SameRecord(m[j], m2[j]) {
      assert SameRecord(m1[j], m2[j]);
    }
  }

  lemma RefreshedFacts(info: Info, addr: Address, penalty: int, now: int)
    ensures var e := Refreshed(info, addr, penalty, now);
            && e.addr.service == info.addr.service && e.fInTried == info.fInTried && e.nRefCount == info.nRefCount
            && e.lastTry == info.lastTry && e.lastSuccess == info.lastSuccess
  {}

  lemma CollisionsCreate(env: Env, m: InfoMap, m': InfoMap, t: Table, n: int, n': int, collisions: set<int>, id: int)
    requires CollisionsOk(env, m, t, n, collisions) && n' == n + 1 && id == n
    requires id in m' && m' == m[id := m'[id]]
    ensures CollisionsOk(env, m', t, n', collisions)
  {}

  ghost predicate Offered(env: Env, vAddr: seq<Address>, s: Service) {
    exists i :: 0 <= i < |vAddr| && vAddr[i].service == s && env.routable(s.ip)
  }

  lemma StepFiles(env: Env, s: Tables, s': Tables, vAddr: seq<Address>, i: nat, source: NetAddr, timePenalty: int,
                  now: int, lucky: bool, added: bool)
    requires i < |vAddr| && AddStep(env, s, s', vAddr[i], source, timePenalty, now, lucky, added)
    requires AddrIndex(s.m, s.a) && AddrIndex(s'.m, s'.a)
    ensures added ==> Filed(env, s'.a, s'.tNew, vAddr[i], source)
    ensures !added ==> s'.a == s.a && s'.tNew == s.tNew
    ensures forall x :: x in s'.a ==> x in s.a || Offered(env, vAddr, x)
  {
    hide Accepts;
    forall x | x in s'.a && x !in s.a ensures Offered(env, vAddr, x) {
      var j := IdOf(s'.a, x);
      assert s'.m[j].addr.service == x;
    }
  }

  // An offered address has its entry in the slot for this source.
  ghost predicate Filed(env: Env, a: map<Service, int>, t: Table, addr: Address, source: NetAddr) {
    var slot := env.NewSlot(addr.service, source);
    env.routable(addr.service.ip) && addr.service in a && slot in t && t[slot] == a[addr.service]
  }

  // ---- GetAddr ----

  // The most that respects both limits, of which zero means none.
  lemma AddrLimitExactly(n: nat, maxAddresses: nat, maxPct: nat, r: nat)
    ensures r <= AddrLimit(n, maxAddresses, maxPct) <==>
            && (maxAddresses != 0 ==> r <= maxAddresses)
            && (if maxPct == 0 then r <= n else 100 * r <= maxPct * n)
  {}

  function AddrLimit(n: nat, maxAddresses: nat, maxPct: nat): nat {
    var byPct := if maxPct != 0 then maxPct * n / 100 else n;
    if maxAddresses != 0 && maxAddresses < byPct then maxAddresses else byPct
  }

  predicate Eligible(env: Env, info: Info, network: Option<Network>, now: int) {
    && (network.Some? ==> env.netClass(info.addr.service.ip) == network.value)
    && !info.IsTerrible(now)
  }

  ghost predicate Chosen(env: Env, info: Info, addr: Address, network: Option<Network>, now: int) {
    addr == info.addr && Eligible(env, info, network, now)
  }

  lemma ChosenFacts(env: Env, m: InfoMap, ids: seq<int>, addresses: seq<Address>, network: Option<Network>, now: int)
    requires |ids| == |addresses|
    requires forall k :: 0 <= k < |ids| ==> ids[k] in m && Chosen(env, m[ids[k]], addresses[k], network, now)
    ensures forall k :: 0 <= k < |ids| ==>
              && addresses[k] == m[ids[k]].addr && !m[ids[k]].IsTerrible(now)
              && (network.Some? ==> env.netClass(addresses[k].service.ip) == network.value)
  {}

  // What has been collected from the first n positions: exactly the eligible entries there.
  ghost predicate Gathered(env: Env, m: InfoMap, n: int, ids: seq<int>, addresses: seq<Address>,
                           network: Option<Network>, now: int) {
    && |ids| == |addresses|
    && (forall j, k :: 0 <= j < k < |ids| ==> ids[j] != ids[k])
    && (forall k :: 0 <= k < |ids| ==> var id := ids[k];
        id in m && m[id].nRandomPos < n && Chosen(env, m[id], addresses[k], network, now))
    && (forall id :: id in m && m[id].nRandomPos < n && Eligible(env, m[id], network, now) ==> id in ids)
  }

  lemma GatheredNone(env: Env, m: InfoMap, v: seq<int>, network: Option<Network>, now: int)
    requires RandomIndex(m, v)
    ensures Gathered(env, m, 0, [], [], network, now)
  {}

  lemma SameSame(m: InfoMap)
    ensures SameButPos(m, m)
  {}

  lemma SameButPosTrans(m: InfoMap, m1: InfoMap, m2: InfoMap)
    requires SameButPos(m, m1) && SameButPos(m1, m2)
    ensures SameButPos(m, m2)
  {}

  lemma ShuffleFrame(env: Env, m: InfoMap, m': InfoMap, a: map<Service, int>, v: seq<int>, v': seq<int>,
                     tNew: Table, tTried: Table, nIdCount: int, nNew: int, nTried: int, counts: NetCounts,
                     collisions: set<int>)
    requires AddrIndex(m, a) && NewTable(env, m, tNew) && TriedTable(env, m, tTried)
    requires Fields(env, m, nIdCount, {}) && Counts(env, m, {}, nNew, nTried, counts)
    requires CollisionsOk(env, m, tTried, nIdCount, collisions)
    requires SameButPos(m, m')
    ensures AddrIndex(m', a) && NewTable(env, m', tNew) && TriedTable(env, m', tTried)
    ensures Fields(env, m', nIdCount, {}) && Counts(env, m', {}, nNew, nTried, counts)
    ensures CollisionsOk(env, m', tTried, nIdCount, collisions)
  {
    hide AddrIndex, NewTable, TriedTable, Counts, Fields, CollisionsOk;
    PositionsOnly(env, m, m', nIdCount, {});
    TablesFrame(env, m, m', a, tNew, tTried);
    CountsFrame(env, m, m', {}, nNew, nTried, counts);
    CollisionsFrame(env, m, m', tTried, nIdCount, collisions);
  }

  lemma IsTerribleFrame(env: Env, i: Info, i': Info, network: Option<Network>, now: int)
    requires i' == i.(nRandomPos := i'.nRandomPos)
    ensures Eligible(env, i', network, now) <==> Eligible(env, i, network, now)
  {}

  // A swap behind position n leaves what was gathered from before n.
  lemma ShuffleGathered(env: Env, m: InfoMap, m': InfoMap, v: seq<int>, v': seq<int>, n: int, ids: seq<int>,
                        addresses: seq<Address>, network: Option<Network>, now: int)
    requires RandomIndex(m, v) && RandomIndex(m', v') && SameButPos(m, m') && |v| == |v'| && 0 <= n <= |v|
    requires v[..n] == v'[..n]
    requires Gathered(env, m, n, ids, addresses, network, now)
    ensures Gathered(env, m', n, ids, addresses, network, now)
  {
    hide Eligible, RandomIndex;
    forall id | id in m
      ensures id in m' && (m'[id].nRandomPos < n <==> m[id].nRandomPos < n)
      ensures Eligible(env, m'[id], network, now) <==> Eligible(env, m[id], network, now)
    {
      PositionOf(m, v, id);
      PositionOf(m', v', id);
      IsTerribleFrame(env, m[id], m'[id], network, now);
      var p, p' := m[id].nRandomPos, m'[id].nRandomPos;
      if p < n {
        assert v'[p] == v'[..n][p] == v[p];
        EntryAt(m', v', p);
      }
      if p' < n {
        assert v[p'] == v[..n][p'] == v'[p'];
        EntryAt(m, v, p');
      }
    }
  }

  lemma GatherNext(env: Env, m: InfoMap, v: seq<int>, n: int, ids: seq<int>, addresses: seq<Address>,
                   network: Option<Network>, now: int)
    requires RandomIndex(m, v) && 0 <= n < |v| && v[n] in m && Gathered(env, m, n, ids, addresses, network, now)
    ensures Eligible(env, m[v[n]], network, now) ==>
              Gathered(env, m, n + 1, ids + [v[n]], addresses + [m[v[n]].addr], network, now)
    ensures !Eligible(env, m[v[n]], network, now) ==> Gathered(env, m, n + 1, ids, addresses, network, now)
  {
    hide Eligible;
    var x := v[n];
    EntryAt(m, v, n);
    forall id | id in m && m[id].nRandomPos == n ensures id == x {
      PositionOf(m, v, id);
    }
  }

  lemma GatheredAll(env: Env, m: InfoMap, m': InfoMap, v: seq<int>, n: int, ids: seq<int>, addresses: seq<Address>,
                    network: Option<Network>, now: int)
    requires RandomIndex(m', v) && SameButPos(m, m') && 0 <= n <= |v|
    requires Gathered(env, m', n, ids, addresses, network, now)
    ensures forall k :: 0 <= k < |ids| ==> ids[k] in m && Chosen(env, m[ids[k]], addresses[k], network, now)
    ensures n == |v| ==> forall id :: id in m && Eligible(env, m[id], network, now) ==> id in ids
  {
    hide Eligible, RandomIndex;
    forall id | id in m
      ensures id in m' && m'[id].nRandomPos < |v|
      ensures Eligible(env, m'[id], network, now) <==> Eligible(env, m[id], network, now)
    {
      PositionOf(m', v, id);
      IsTerribleFrame(env, m[id], m'[id], network, now);
    }
    forall k | 0 <= k < |ids|
      ensures ids[k] in m && Chosen(env, m[ids[k]], addresses[k], network, now)
    {
      var id := ids[k];
      assert id in m' && id in m;
    }
  }

  // ---- pending collisions ----

  ghost function Occupant(env: Env, m: InfoMap, tTried: Table, s: Service): Option<Info> {
    if env.TriedSlot(s) in tTried && IdAt(tTried, env.TriedSlot(s)) in m
    then Some(m[IdAt(tTried, env.TriedSlot(s))]) else None
  }

  // The tried entry in the way has to give up its place.
  ghost predicate Replaces(env: Env, m: InfoMap, tTried: Table, idNew: int, now: int) {
    && idNew in m
    && var occupant := Occupant(env, m, tTried, m[idNew].addr.service);
    && occupant.Some?
    && var o := occupant.value;
    && now - o.lastSuccess >= REPLACEMENT
    && if now - o.lastTry < REPLACEMENT then now - o.lastTry > 60 else now - m[idNew].lastSuccess > TEST_WINDOW
  }

  ghost predicate Settled(env: Env, m: InfoMap, tTried: Table, idNew: int, now: int) {
    || idNew !in m
    || Replaces(env, m, tTried, idNew, now)
    || var occupant := Occupant(env, m, tTried, m[idNew].addr.service);
       occupant.Some? && now - occupant.value.lastSuccess < REPLACEMENT
  }

  lemma ReplacesSettles(env: Env, m: InfoMap, tTried: Table, idNew: int, now: int)
    ensures Replaces(env, m, tTried, idNew, now) ==> Settled(env, m, tTried, idNew, now)
  {}

  // The rules in seconds: an entry gives up its place if it did not work for four hours and was tried
  // between a minute and four hours ago, or, not tried since, the collision is forty minutes old.
  lemma ReplacesExactly(env: Env, m: InfoMap, tTried: Table, idNew: int, now: int)
    requires idNew in m && Occupant(env, m, tTried, m[idNew].addr.service).Some?
    ensures var o := Occupant(env, m, tTried, m[idNew].addr.service).value;
            Replaces(env, m, tTried, idNew, now) <==>
            && o.lastSuccess <= now - 14400
            && ((now - 14400 < o.lastTry < now - 60) ||
                (o.lastTry <= now - 14400 && m[idNew].lastSuccess < now - 2400))
  {}

  // The rules in seconds: the time moves on if the offer is younger by more than an hour, or a day for
  // a peer not seen within a day; the penalty never makes it negative.
  lemma RefreshedExactly(info: Info, addr: Address, penalty: int, now: int)
    ensures var e := Refreshed(info, addr, penalty, now);
            var late := if addr.nTime > now - 86400 then 3600 else 86400;
            && e == info.(addr := e.addr) && e.addr == info.addr.(nTime := e.addr.nTime, nServices := e.addr.nServices)
            && e.addr.nServices == info.addr.nServices | addr.nServices
            && (if addr.nTime - info.addr.nTime > late + penalty
                then e.addr.nTime >= 0 && e.addr.nTime >= addr.nTime - penalty
                     && (e.addr.nTime == 0 || e.addr.nTime == addr.nTime - penalty)
                else e.addr.nTime == info.addr.nTime)
  {}

  // A pending collision and the state it is looked at in.
  datatype Visit = Visit(id: int, s: Tables)

  // What looking at a collision does.
  ghost predicate Outcome(env: Env, v: Visit, s': Tables, now: int) {
    if Replaces(env, v.s.m, v.s.tTried, v.id, now)
    then v.id in s'.m && s'.m[v.id].fInTried && Promoted(env, v.s, s', v.id, now)
    else s' == v.s
  }

  // Each visit starts from where the one before it ended.
  ghost predicate Chained(env: Env, s0: Tables, visits: seq<Visit>, s: Tables, now: int) {
    if visits == [] then s == s0
    else
      && visits[0].s == s0 && Outcome(env, visits[|visits| - 1], s, now)
      && forall k {:trigger visits[k + 1]} :: 0 <= k < |visits| - 1 ==> Outcome(env, visits[k], visits[k + 1].s, now)
  }

  lemma ChainedNone(env: Env, s: Tables, now: int)
    ensures Chained(env, s, [], s, now)
  {}

  lemma ChainedNext(env: Env, s0: Tables, visits: seq<Visit>, v: Visit, s: Tables, now: int)
    requires Chained(env, s0, visits, v.s, now) && Outcome(env, v, s, now)
    ensures Chained(env, s0, visits + [v], s, now)
  {
    hide Outcome;
    var vs := visits + [v];
    forall k | 0 <= k < |vs| - 1 ensures Outcome(env, vs[k], vs[k + 1].s, now) {
      if k < |visits| - 1 {
        assert vs[k] == visits[k] && vs[k + 1] == visits[k + 1];
      }
    }
  }

  lemma CollisionFacts(env: Env, m: InfoMap, a: map<Service, int>, t: Table, nIdCount: int, collisions: set<int>,
                       id: int)
    requires CollisionsOk(env, m, t, nIdCount, collisions) && AddrIndex(m, a) && Fields(env, m, nIdCount, {})
    requires id in collisions && id in m
    requires TriedTable(env, m, t)
    ensures env.TriedSlot(m[id].addr.service) in t && env.valid(m[id].addr.service.ip) && !m[id].fInTried
    ensures m[id].addr.service in a && IdOf(a, m[id].addr.service) == id
  {}

  lemma CollisionsRemove(env: Env, m: InfoMap, t: Table, nIdCount: int, collisions: set<int>, id: int)
    requires CollisionsOk(env, m, t, nIdCount, collisions)
    ensures CollisionsOk(env, m, t, nIdCount, collisions - {id})
  {}

}
