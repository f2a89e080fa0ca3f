/** Saving the address manager and loading it back.

    A stream holds the new entries, the tried entries and, per new bucket, the
    indexes of its occupants; every other index is rebuilt on load. */
module AddrDisk {
  import opened Basics
  import opened AddrTables
  import AddrCheck
  import AddrMan

  // The persistent part of an entry.
  datatype Disk = Disk(addr: Address, source: NetAddr, lastSuccess: int, nAttempts: int)

  datatype Stream = Stream(newEntries: seq<Disk>, triedEntries: seq<Disk>, buckets: seq<seq<int>>, asmapChecksum: nat)

  datatype State = State(m: InfoMap, a: map<Service, int>, v: seq<int>, tNew: Table, tTried: Table,
                         nIdCount: int, nNew: int, nTried: int, counts: NetCounts)

  function ToDisk(i: Info): Disk {
    Disk(i.addr, i.source, i.lastSuccess, i.nAttempts)
  }

  function FromDisk(d: Disk): Info {
    Info(d.addr, d.source, 0, 0, d.lastSuccess, d.nAttempts, 0, false, -1)
  }

  // What is on disk is read back; attempts at connecting are forgotten.
  lemma LoadedForgets(d: Disk)
    ensures ToDisk(FromDisk(d)) == d && FromDisk(d).lastTry == 0 && FromDisk(d).lastCountAttempt == 0
    ensures FromDisk(d).nRefCount == 0 && !FromDisk(d).fInTried
  {}

  // ---- what a load puts where ----

  // (bucket, index) pairs in file order; indexes that name no entry are skipped.
  function Row(b: int, list: seq<int>, nNew: int): seq<(int, int)> {
    if list == [] then []
    else Row(b, list[..|list| - 1], nNew) + (if 0 <= list[|list| - 1] < nNew then [(b, list[|list| - 1])] else [])
  }

  function Flat(buckets: seq<seq<int>>, n: nat, nNew: int): seq<(int, int)>
    requires n <= |buckets|
  {
    if n == 0 then [] else Flat(buckets, n - 1, nNew) + Row(n - 1, buckets[n - 1], nNew)
  }

  function SlotOf(env: Env, entries: seq<Disk>, p: (int, int)): Slot
    requires 0 <= p.1 < |entries|
  {
    (p.0, env.Position(true, p.0, entries[p.1].addr.service))
  }

  ghost predicate PairsOk(pairs: seq<(int, int)>, n: int, buckets: int) {
    forall k :: 0 <= k < |pairs| ==> 0 <= pairs[k].0 < buckets && 0 <= pairs[k].1 < n
  }

  // The new table with every pair put at its own slot.
  ghost function Restored(env: Env, entries: seq<Disk>, pairs: seq<(int, int)>, n: nat): Table
    requires n <= |pairs| && forall k :: 0 <= k < |pairs| ==> 0 <= pairs[k].1 < |entries|
  {
    if n == 0 then map[] else Restored(env, entries, pairs, n - 1)[SlotOf(env, entries, pairs[n - 1]) := pairs[n - 1].1]
  }

  ghost function TriedRestored(env: Env, entries: seq<Disk>, base: int, n: nat): Table
    requires n <= |entries|
  {
    if n == 0 then map[]
    else TriedRestored(env, entries, base, n - 1)[env.TriedSlot(entries[n - 1].addr.service) := base + n - 1]
  }

  ghost function NewInfo(entries: seq<Disk>, n: nat): InfoMap
    requires n <= |entries|
  {
    map k | 0 <= k < n :: FromDisk(entries[k]).(nRandomPos := k)
  }

  ghost function BothInfo(s: Stream, n: nat): InfoMap
    requires n <= |s.triedEntries|
  {
    map k | 0 <= k < |s.newEntries| + n ::
      if k < |s.newEntries| then FromDisk(s.newEntries[k]).(nRandomPos := k)
      else FromDisk(s.triedEntries[k - |s.newEntries|]).(nRandomPos := k, fInTried := true)
  }

  // Entries with their references into a table counted.
  ghost function Counted(m: InfoMap, t: Table): InfoMap {
    map k | k in m :: m[k].(nRefCount := |SlotsOf(t, k)|)
  }

  ghost predicate DistinctServices(entries: seq<Disk>) {
    forall j, k :: 0 <= j < k < |entries| ==> entries[j].addr.service != entries[k].addr.service
  }

  // A stream from which nothing is lost on load.
  ghost predicate Clean(env: Env, s: Stream) {
    && !env.keyIsNull
    && s.asmapChecksum == env.asmapChecksum
    && |s.buckets| == NEW_BUCKET_COUNT
    && |s.newEntries| <= NEW_BUCKET_COUNT * BUCKET_SIZE
    && |s.triedEntries| <= TRIED_BUCKET_COUNT * BUCKET_SIZE
    && DistinctServices(s.newEntries + s.triedEntries)
    && (forall k :: 0 <= k < |s.newEntries| ==>
        env.valid(s.newEntries[k].addr.service.ip) && s.newEntries[k].lastSuccess >= 0)
    && (forall k :: 0 <= k < |s.triedEntries| ==>
        env.valid(s.triedEntries[k].addr.service.ip) && s.triedEntries[k].lastSuccess > 0)
    && (forall j, k :: 0 <= j < k < |s.triedEntries| ==>
          env.TriedSlot(s.triedEntries[j].addr.service) != env.TriedSlot(s.triedEntries[k].addr.service))
    && var pairs := Flat(s.buckets, |s.buckets|, |s.newEntries|);
    && PairsOk(pairs, |s.newEntries|, NEW_BUCKET_COUNT)
    && (forall j, k :: 0 <= j < k < |pairs| ==>
        SlotOf(env, s.newEntries, pairs[j]) != SlotOf(env, s.newEntries, pairs[k]))
    && (forall id :: 0 <= id < |s.newEntries| ==>
        1 <= |SlotsOf(Restored(env, s.newEntries, pairs, |pairs|), id)| <= NEW_BUCKETS_PER_ADDRESS)
  }

  lemma RowOk(b: int, list: seq<int>, nNew: int, buckets: int)
    requires 0 <= b < buckets
    ensures PairsOk(Row(b, list, nNew), nNew, buckets)
  {}

  lemma FlatOk(buckets: seq<seq<int>>, n: nat, nNew: int)
    requires n <= |buckets|
    ensures PairsOk(Flat(buckets, n, nNew), nNew, |buckets|)
  {
    if n > 0 {
      RowOk(n - 1, buckets[n - 1], nNew, |buckets|);
    }
  }

  // ---- loading ----

  ghost predicate Identity(v: seq<int>) {
    forall k :: 0 <= k < |v| ==> v[k] == k
  }

  ghost predicate IdsBelow(m: InfoMap, n: int) {
    forall id :: id in m <==> 0 <= id < n
  }

  method LoadNew(env: Env, entries: seq<Disk>)
    returns (m: InfoMap, a: map<Service, int>, v: seq<int>, counts: NetCounts)
    ensures m == NewInfo(entries, |entries|) && |v| == |entries| && Identity(v)
    ensures DistinctServices(entries) ==> AddrIndex(m, a)
    ensures NetCountsOk(env, m, {}, counts)
  {
    m, a, v, counts := map[], map[], [], map[];
    AddrMan.EmptyCounts(env);
    for n := 0 to |entries|
      invariant m == NewInfo(entries, n) && |v| == n && Identity(v)
      invariant DistinctServices(entries) ==> AddrIndex(m, a)
      invariant NetCountsOk(env, m, {}, counts)
    {
      var info := FromDisk(entries[n]).(nRandomPos := |v|);
      var net := env.network(info.addr.service.ip);
      CountsInsert(env, m, n, info, counts);
      assert m[n := info] == NewInfo(entries, n + 1);
      if DistinctServices(entries) {
        AddrInsert(m, a, n, info);
      }
      m := m[n := info];
      a := a[info.addr.service := n];
      v := v + [n];
      counts := Bump(counts, net, 1, 0);
    }
  }

  lemma CountsInsert(env: Env, m: InfoMap, id: int, info: Info, counts: NetCounts)
    requires NetCountsOk(env, m, {}, counts) && id !in m
    ensures NetCountsOk(env, m[id := info], {},
                        Bump(counts, env.network(info.addr.service.ip), if info.fInTried then 0 else 1,
                             if info.fInTried then 1 else 0))
  {
    assert m[id := info] - {id} == m - {id};
    CountsDelta(env, m, m[id := info], {}, {}, id, env.network(info.addr.service.ip), |NewIds(m, {})|,
                |TriedIds(m)|, counts);
  }

  lemma AddrInsert(m: InfoMap, a: map<Service, int>, id: int, info: Info)
    requires AddrIndex(m, a) && id !in m
    requires forall k :: k in m ==> m[k].addr.service != info.addr.service
    ensures AddrIndex(m[id := info], a[info.addr.service := id])
  {
    assert info.addr.service !in a;
    AddrMan.AddrInserted(m, a, id, info);
  }

  lemma {:induction false} TriedRestoredAt(env: Env, entries: seq<Disk>, base: int, n: nat, slot: Slot)
    requires n <= |entries|
    ensures slot in TriedRestored(env, entries, base, n) ==>
              exists j :: 0 <= j < n && slot == env.TriedSlot(entries[j].addr.service)
                && TriedRestored(env, entries, base, n)[slot] == base + j
  {
    if n > 0 {
      TriedRestoredAt(env, entries, base, n - 1, slot);
      if slot == env.TriedSlot(entries[n - 1].addr.service) {
        assert TriedRestored(env, entries, base, n)[slot] == base + (n - 1);
      }
    }
  }

  lemma {:induction false} TriedRestoredHas(env: Env, entries: seq<Disk>, base: int, n: nat, j: nat)
    requires j < n <= |entries|
    requires forall i, k :: 0 <= i < k < |entries| ==>
               env.TriedSlot(entries[i].addr.service) != env.TriedSlot(entries[k].addr.service)
    ensures var slot := env.TriedSlot(entries[j].addr.service);
            slot in TriedRestored(env, entries, base, n) && TriedRestored(env, entries, base, n)[slot] == base + j
  {
    if j < n - 1 {
      TriedRestoredHas(env, entries, base, n - 1, j);
    }
  }

  method LoadTried(env: Env, s: Stream, m0: InfoMap, a0: map<Service, int>, v0: seq<int>, counts0: NetCounts)
    returns (m: InfoMap, a: map<Service, int>, v: seq<int>, tTried: Table, nTried: int, counts: NetCounts)
    requires m0 == NewInfo(s.newEntries, |s.newEntries|) && |v0| == |s.newEntries| && Identity(v0)
    requires NetCountsOk(env, m0, {}, counts0) && (DistinctServices(s.newEntries) ==> AddrIndex(m0, a0))
    ensures AddrCheck.InRange(tTried, TRIED_BUCKET_COUNT) && Plain(m, v) && |v| >= |s.newEntries|
    ensures forall k :: 0 <= k < |s.newEntries| ==> k in m && m[k] == m0[k]
    ensures Clean(env, s) ==> LoadedTried(env, s, |s.triedEntries|, m, a, v, tTried, nTried, counts)
    ensures Sound(env, s) ==> TriedPart(env, s, |s.triedEntries|, m, a, tTried, nTried, counts)
  {
    hide Clean, Sound, TriedRestored, LoadedTried, TriedPart, NetCountsOk, AddrIndex, DistinctServices, Plain, Bump;
    PlainStart(s.newEntries, m0, v0);
    m, a, v, counts, tTried, nTried := m0, a0, v0, counts0, map[], |s.triedEntries|;
    if Sound(env, s) {
      TriedStart(env, s, m, a, counts);
    }
    if Clean(env, s) {
      LoadedStart(env, s, m, a, v, counts);
    }
    var nLost := 0;
    for n := 0 to |s.triedEntries|
      invariant AddrCheck.InRange(tTried, TRIED_BUCKET_COUNT) && Plain(m, v) && |v| >= |s.newEntries|
      invariant forall k :: 0 <= k < |s.newEntries| ==> k in m && m[k] == m0[k]
      invariant Clean(env, s) ==> nLost == 0 && LoadedTried(env, s, n, m, a, v, tTried, n, counts)
      invariant Sound(env, s) ==> TriedPart(env, s, n, m, a, tTried, n - nLost, counts)
    {
      var info := FromDisk(s.triedEntries[n]);
      var slot := env.TriedSlot(info.addr.service);
      if Sound(env, s) {
        TriedNext(env, s, n, m, a, v, tTried, n - nLost, counts);
      }
      if Clean(env, s) {
        LoadedNext(env, s, n, m, a, v, tTried, counts);
      }
      if env.valid(info.addr.service.ip) && slot !in tTried {
        var nIdCount := |v|;
        info := info.(nRandomPos := nIdCount, fInTried := true);
        PlainNext(m, v, info);
        v := v + [nIdCount];
        m := m[nIdCount := info];
        a := a[info.addr.service := nIdCount];
        tTried := tTried[slot := nIdCount];
        counts := Bump(counts, env.network(info.addr.service.ip), 0, 1);
      } else {
        nLost := nLost + 1;
      }
    }
    nTried := nTried - nLost;
  }

  // Ids are 0, 1, 2, ... in the order of vRandom, and nothing is referenced yet.
  ghost predicate Plain(m: InfoMap, v: seq<int>) {
    && Identity(v)
    && IdsBelow(m, |v|)
    && forall id :: id in m ==> m[id].nRandomPos == id && m[id].nRefCount == 0
  }

  lemma PlainStart(entries: seq<Disk>, m: InfoMap, v: seq<int>)
    requires m == NewInfo(entries, |entries|) && |v| == |entries| && Identity(v)
    ensures Plain(m, v)
  {}

  lemma PlainNext(m: InfoMap, v: seq<int>, info: Info)
    requires Plain(m, v) && info.nRandomPos == |v| && info.nRefCount == 0
    ensures Plain(m[|v| := info], v + [|v|])
    ensures |v| !in m && forall k :: 0 <= k < |v| ==> k in m
  {}

  ghost predicate LoadedTried(env: Env, s: Stream, n: nat, m: InfoMap, a: map<Service, int>, v: seq<int>,
                              tTried: Table, nTried: int, counts: NetCounts)
  {
    && n <= |s.triedEntries|
    && m == BothInfo(s, n)
    && |v| == |s.newEntries| + n
    && AddrIndex(m, a)
    && tTried == TriedRestored(env, s.triedEntries, |s.newEntries|, n)
    && nTried == n
    && NetCountsOk(env, m, {}, counts)
  }

  lemma NewServicesDistinct(s: Stream)
    requires DistinctServices(s.newEntries + s.triedEntries)
    ensures DistinctServices(s.newEntries)
  {
    forall j, k | 0 <= j < k < |s.newEntries| ensures s.newEntries[j].addr.service != s.newEntries[k].addr.service {
      assert (s.newEntries + s.triedEntries)[j] == s.newEntries[j]
               && (s.newEntries + s.triedEntries)[k] == s.newEntries[k];
    }
  }

  lemma LoadedStart(env: Env, s: Stream, m: InfoMap, a: map<Service, int>, v: seq<int>, counts: NetCounts)
    requires Clean(env, s) && m == NewInfo(s.newEntries, |s.newEntries|) && |v| == |s.newEntries|
    requires NetCountsOk(env, m, {}, counts) && (DistinctServices(s.newEntries) ==> AddrIndex(m, a))
    ensures LoadedTried(env, s, 0, m, a, v, map[], 0, counts)
  {
    NewServicesDistinct(s);
    assert m == BothInfo(s, 0);
  }

  lemma BothInfoAt(s: Stream, n: nat, k: int)
    requires n <= |s.triedEntries| && 0 <= k < |s.newEntries| + n
    ensures k in BothInfo(s, n) && BothInfo(s, n)[k].addr == (s.newEntries + s.triedEntries)[k].addr
  {
    if k < |s.newEntries| {
      assert (s.newEntries + s.triedEntries)[k] == s.newEntries[k];
    } else {
      var d := s.triedEntries[k - |s.newEntries|];
      assert (s.newEntries + s.triedEntries)[k] == d;
      assert BothInfo(s, n)[k] == FromDisk(d).(nRandomPos := k, fInTried := true);
    }
  }

  lemma LoadedNext(env: Env, s: Stream, n: nat, m: InfoMap, a: map<Service, int>, v: seq<int>, tTried: Table,
                   counts: NetCounts)
    requires Clean(env, s) && n < |s.triedEntries| && LoadedTried(env, s, n, m, a, v, tTried, n, counts)
    ensures var service := s.triedEntries[n].addr.service;
            var slot := env.TriedSlot(service);
            var info := FromDisk(s.triedEntries[n]).(nRandomPos := |v|, fInTried := true);
            && env.valid(service.ip) && slot !in tTried
            && LoadedTried(env, s, n + 1, m[|v| := info], a[service := |v|], v + [|v|], tTried[slot := |v|], n + 1,
                           Bump(counts, env.network(service.ip), 0, 1))
  {
    hide AddrIndex, NetCountsOk, Bump, Env.TriedSlot;
    var service := s.triedEntries[n].addr.service;
    var id := |v|;
    var info := FromDisk(s.triedEntries[n]).(nRandomPos := id, fInTried := true);
    LoadedSlotFree(env, s, n);
    LoadedServiceNew(env, s, n);
    hide Clean, TriedRestored;
    AddrInsert(m, a, id, info);
    CountsInsert(env, m, id, info, counts);
    BothInfoNext(s, n);
  }

  lemma LoadedSlotFree(env: Env, s: Stream, n: nat)
    requires Clean(env, s) && n < |s.triedEntries|
    ensures env.valid(s.triedEntries[n].addr.service.ip)
    ensures env.TriedSlot(s.triedEntries[n].addr.service) !in TriedRestored(env, s.triedEntries, |s.newEntries|, n)
  {
    TriedRestoredAt(env, s.triedEntries, |s.newEntries|, n, env.TriedSlot(s.triedEntries[n].addr.service));
  }

  lemma LoadedServiceNew(env: Env, s: Stream, n: nat)
    requires Clean(env, s) && n < |s.triedEntries|
    ensures forall k :: k in BothInfo(s, n) ==> BothInfo(s, n)[k].addr.service != s.triedEntries[n].addr.service
  {
    var all, m := s.newEntries + s.triedEntries, BothInfo(s, n);
    assert all[|s.newEntries| + n] == s.triedEntries[n];
    forall k | k in m ensures m[k].addr.service != s.triedEntries[n].addr.service {
      BothInfoAt(s, n, k);
      Differ(all, k, |s.newEntries| + n);
    }
  }

  lemma BothInfoNext(s: Stream, n: nat)
    requires n < |s.triedEntries|
    ensures var id := |s.newEntries| + n;
            && id !in BothInfo(s, n)
            && BothInfo(s, n)[id := FromDisk(s.triedEntries[n]).(nRandomPos := id, fInTried := true)] ==
                 BothInfo(s, n + 1)
  {}

  // ---- new table ----

  method CollectPairs(buckets: seq<seq<int>>, nNew: nat) returns (pairs: seq<(int, int)>)
    ensures pairs == Flat(buckets, |buckets|, nNew)
  {
    pairs := [];
    for b := 0 to |buckets|
      invariant pairs == Flat(buckets, b, nNew)
    {
      for n := 0 to |buckets[b]|
        invariant pairs == Flat(buckets, b, nNew) + Row(b, buckets[b][..n], nNew)
      {
        var index := buckets[b][n];
        assert buckets[b][..n + 1][..n] == buckets[b][..n];
        if 0 <= index < nNew {
          pairs := pairs + [(b, index)];
        }
      }
      assert buckets[b][..|buckets[b]|] == buckets[b];
    }
  }

  // Put every (bucket, entry) pair back; fall back on the entry's own source bucket.
  method Restore(env: Env, entries: seq<Disk>, m0: InfoMap, pairs: seq<(int, int)>, restoreBucketing: bool)
    returns (m: InfoMap, t: Table)
    requires forall k :: 0 <= k < |entries| ==>
               k in m0 && m0[k].addr == entries[k].addr && m0[k].source == entries[k].source
    requires forall id :: id in m0 ==> m0[id].nRefCount == 0
    requires forall k :: 0 <= k < |pairs| ==>
               0 <= pairs[k].1 < |entries| && (restoreBucketing ==> 0 <= pairs[k].0 < NEW_BUCKET_COUNT)
    ensures AddrCheck.InRange(t, NEW_BUCKET_COUNT) && m == Counted(m0, t)
    ensures FiledRight(env, entries, t) && AllTouched(env, entries, t, pairs, restoreBucketing, |pairs|)
    ensures NoLoss(env, entries, pairs) && restoreBucketing ==> t == Restored(env, entries, pairs, |pairs|)
  {
    hide NoLoss, Counted, FiledRight, AllTouched;
    m, t := m0, map[];
    CountedEmpty(m0);
    FiledNone(env, entries, pairs, restoreBucketing);
    for k := 0 to |pairs|
      invariant AddrCheck.InRange(t, NEW_BUCKET_COUNT) && m == Counted(m0, t)
      invariant FiledRight(env, entries, t) && AllTouched(env, entries, t, pairs, restoreBucketing, k)
      invariant NoLoss(env, entries, pairs) && restoreBucketing ==> t == Restored(env, entries, pairs, k)
    {
      var bucket, index := pairs[k].0, pairs[k].1;
      CountedAt(m0, t, index);
      var info := m[index];
      if NoLoss(env, entries, pairs) && restoreBucketing {
        NoLossNext(env, entries, pairs, k);
      }
      if env.valid(info.addr.service.ip) && info.nRefCount < NEW_BUCKETS_PER_ADDRESS {
        var slot := (bucket, env.Position(true, bucket, info.addr.service));
        if restoreBucketing && slot !in t {
          CountedAdd(m0, t, slot, index);
          FiledAdd(env, entries, t, pairs, restoreBucketing, k, slot);
          t := t[slot := index];
          m := m[index := info.(nRefCount := info.nRefCount + 1)];
        } else {
          var own := env.NewSlot(info.addr.service, info.source);
          if own !in t {
            CountedAdd(m0, t, own, index);
            FiledAdd(env, entries, t, pairs, restoreBucketing, k, own);
            t := t[own := index];
            m := m[index := info.(nRefCount := info.nRefCount + 1)];
          } else {
            TouchedNext(env, entries, t, pairs, restoreBucketing, k);
          }
        }
      } else {
        TouchedNext(env, entries, t, pairs, restoreBucketing, k);
      }
    }
  }

  lemma CountedEmpty(m: InfoMap)
    requires forall id :: id in m ==> m[id].nRefCount == 0
    ensures m == Counted(m, map[])
  {
    forall id | id in m ensures Counted(m, map[])[id] == m[id] {
      assert SlotsOf(map[], id) == {};
    }
  }

  lemma CountedAt(m: InfoMap, t: Table, id: int)
    requires id in m
    ensures id in Counted(m, t) && Counted(m, t)[id] == m[id].(nRefCount := |SlotsOf(t, id)|)
  {}

  lemma CountedAdd(m: InfoMap, t: Table, slot: Slot, id: int)
    requires slot !in t && id in m
    ensures Counted(m, t[slot := id]) == Counted(m, t)[id := m[id].(nRefCount := |SlotsOf(t, id)| + 1)]
  {
    SlotsAdd(t, slot, id);
  }

  // Every pair has a slot of its own, and no entry has too many.
  ghost predicate NoLoss(env: Env, entries: seq<Disk>, pairs: seq<(int, int)>) {
    && (forall k :: 0 <= k < |entries| ==> env.valid(entries[k].addr.service.ip))
    && (forall k :: 0 <= k < |pairs| ==> 0 <= pairs[k].1 < |entries|)
    && (forall j, k :: 0 <= j < k < |pairs| ==> SlotOf(env, entries, pairs[j]) != SlotOf(env, entries, pairs[k]))
    && (forall id :: 0 <= id < |entries| ==>
        |SlotsOf(Restored(env, entries, pairs, |pairs|), id)| <= NEW_BUCKETS_PER_ADDRESS)
  }

  lemma {:induction false} RestoredAt(env: Env, entries: seq<Disk>, pairs: seq<(int, int)>, n: nat, slot: Slot)
    requires n <= |pairs| && forall k :: 0 <= k < |pairs| ==> 0 <= pairs[k].1 < |entries|
    ensures slot in Restored(env, entries, pairs, n) ==>
              exists j :: 0 <= j < n && slot == SlotOf(env, entries, pairs[j])
                && Restored(env, entries, pairs, n)[slot] == pairs[j].1
  {
    if n > 0 {
      RestoredAt(env, entries, pairs, n - 1, slot);
      if slot == SlotOf(env, entries, pairs[n - 1]) {
        assert Restored(env, entries, pairs, n)[slot] == pairs[n - 1].1;
      }
    }
  }

  // References only grow as pairs are put back.
  lemma {:induction false} RestoredGrows(env: Env, entries: seq<Disk>, pairs: seq<(int, int)>, n: nat, n': nat, id: int)
    requires n <= n' <= |pairs| && forall k :: 0 <= k < |pairs| ==> 0 <= pairs[k].1 < |entries|
    requires forall j, k :: 0 <= j < k < |pairs| ==> SlotOf(env, entries, pairs[j]) != SlotOf(env, entries, pairs[k])
    ensures |SlotsOf(Restored(env, entries, pairs, n), id)| <= |SlotsOf(Restored(env, entries, pairs, n'), id)|
    decreases n' - n
  {
    if n < n' {
      RestoredAt(env, entries, pairs, n' - 1, SlotOf(env, entries, pairs[n' - 1]));
      SlotsAdd(Restored(env, entries, pairs, n' - 1), SlotOf(env, entries, pairs[n' - 1]), pairs[n' - 1].1);
      RestoredGrows(env, entries, pairs, n, n' - 1, id);
    }
  }

  lemma NoLossNext(env: Env, entries: seq<Disk>, pairs: seq<(int, int)>, k: nat)
    requires NoLoss(env, entries, pairs) && k < |pairs|
    ensures env.valid(entries[pairs[k].1].addr.service.ip)
    ensures SlotOf(env, entries, pairs[k]) !in Restored(env, entries, pairs, k)
    ensures |SlotsOf(Restored(env, entries, pairs, k), pairs[k].1)| < NEW_BUCKETS_PER_ADDRESS
  {
    RestoredAt(env, entries, pairs, k, SlotOf(env, entries, pairs[k]));
    SlotsAdd(Restored(env, entries, pairs, k), SlotOf(env, entries, pairs[k]), pairs[k].1);
    RestoredGrows(env, entries, pairs, k + 1, |pairs|, pairs[k].1);
  }

  // ---- the rest of a load ----

  // Every index but the fields agrees.
  ghost predicate Whole(env: Env, m: InfoMap, a: map<Service, int>, tNew: Table, tTried: Table,
                        nNew: int, nTried: int, counts: NetCounts) {
    && AddrIndex(m, a)
    && NewTable(env, m, tNew)
    && TriedTable(env, m, tTried)
    && Counts(env, m, {}, nNew, nTried, counts)
  }

  predicate InSomeTable(i: Info) {
    i.fInTried || i.nRefCount != 0
  }

  // Exactly the entries in some table are left, unchanged but for their positions in vRandom.
  ghost predicate Pruned(m0: InfoMap, m: InfoMap) {
    && (forall id :: id in m <==> id in m0 && InSomeTable(m0[id]))
    && (forall id :: id in m ==> m[id] == m0[id].(nRandomPos := m[id].nRandomPos))
  }

  // The same with the entries in `todo` still to be looked at.
  ghost predicate Pruning(m0: InfoMap, m: InfoMap, todo: set<int>) {
    && todo <= m.Keys
    && (forall id :: id in m ==> id in m0 && m[id] == m0[id].(nRandomPos := m[id].nRandomPos))
    && (forall id :: id in m0 && id !in todo ==> (id in m <==> InSomeTable(m0[id])))
  }

  // Drop entries that ended up in no table.
  method Prune(env: Env, m0: InfoMap, a0: map<Service, int>, v0: seq<int>, counts0: NetCounts, nNew0: int,
               ghost tNew: Table, ghost tTried: Table, ghost nTried: int)
    returns (m: InfoMap, a: map<Service, int>, v: seq<int>, counts: NetCounts, nNew: int)
    requires RandomIndex(m0, v0)
    ensures (forall id :: id in m0 ==> InSomeTable(m0[id])) ==>
              m == m0 && a == a0 && v == v0 && counts == counts0 && nNew == nNew0
    ensures RandomIndex(m, v) && Pruned(m0, m)
    ensures Whole(env, m0, a0, tNew, tTried, nNew0, nTried, counts0) ==>
              Whole(env, m, a, tNew, tTried, nNew, nTried, counts)
  {
    hide RandomIndex, Bump, Whole, Pruning, Pruned;
    m, a, v, counts, nNew := m0, a0, v0, counts0, nNew0;
    var todo := m.Keys;
    PruningStart(m0);
    while todo != {}
      invariant RandomIndex(m, v) && todo <= m.Keys && Pruning(m0, m, todo)
      invariant (forall id :: id in m0 ==> InSomeTable(m0[id])) ==>
                  m == m0 && a == a0 && v == v0 && counts == counts0 && nNew == nNew0
      invariant Whole(env, m0, a0, tNew, tTried, nNew0, nTried, counts0) ==>
                  Whole(env, m, a, tNew, tTried, nNew, nTried, counts)
    {
      SomeElement(todo);
      var id :| id in todo;
      var info := m[id];
      PruningFacts(m0, m, todo, id);
      ghost var before := m;
      if !info.fInTried && info.nRefCount == 0 {
        AddrMan.PositionOf(m, v, id);
        var p, last := info.nRandomPos, |v| - 1;
        AddrMan.SameSame(m);
        if p != last {
          AddrMan.SwapPositions(m, v, p, last);
          var other := v[last];
          m := m[id := m[id].(nRandomPos := last)][other := m[other].(nRandomPos := p)];
          v := v[p := other][last := id];
          Swapped(before, m, id, other);
        }
        AddrMan.PositionOf(m, v, id);
        AddrMan.EntryAt(m, v, |v| - 1);
        AddrMan.RandomRemoved(m, v, id);
        if Whole(env, before, a, tNew, tTried, nNew, nTried, counts) {
          PruneOne(env, before, m, a, tNew, tTried, nNew, nTried, counts, id);
        }
        PruningDrop(m0, before, m, todo, id);
        counts := Bump(counts, env.network(info.addr.service.ip), -1, 0);
        v := v[..|v| - 1];
        a := a - {info.addr.service};
        m := m - {id};
        nNew := nNew - 1;
      } else {
        PruningKeep(m0, m, todo, id);
      }
      todo := todo - {id};
    }
    PruningEnd(m0, m);
  }

  lemma PruningStart(m: InfoMap)
    ensures Pruning(m, m, m.Keys)
  {}

  lemma PruningFacts(m0: InfoMap, m: InfoMap, todo: set<int>, id: int)
    requires Pruning(m0, m, todo) && id in todo
    ensures id in m && id in m0 && InSomeTable(m[id]) == InSomeTable(m0[id])
  {}

  lemma Swapped(m: InfoMap, m': InfoMap, id: int, other: int)
    requires id in m && other in m && id in m' && other in m'
    requires m' == m[id := m[id].(nRandomPos := m'[id].nRandomPos)]
                    [other := m[other].(nRandomPos := m'[other].nRandomPos)]
    ensures SameButPos(m, m')
  {}

  lemma PruningDrop(m0: InfoMap, m: InfoMap, m': InfoMap, todo: set<int>, id: int)
    requires Pruning(m0, m, todo) && SameButPos(m, m') && id in todo && id in m0 && !InSomeTable(m0[id])
    ensures Pruning(m0, m' - {id}, todo - {id}) && todo - {id} <= (m' - {id}).Keys
  {
    assert forall x :: x in todo - {id} ==> x in m && x in m' - {id};
  }

  lemma PruningKeep(m0: InfoMap, m: InfoMap, todo: set<int>, id: int)
    requires Pruning(m0, m, todo) && id in todo && id in m0 && InSomeTable(m0[id])
    ensures Pruning(m0, m, todo - {id})
  {}

  lemma PruningEnd(m0: InfoMap, m: InfoMap)
    requires Pruning(m0, m, {})
    ensures Pruned(m0, m)
  {}

  lemma PruneOne(env: Env, m0: InfoMap, m: InfoMap, a: map<Service, int>, tNew: Table, tTried: Table,
                 nNew: int, nTried: int, counts: NetCounts, id: int)
    requires Whole(env, m0, a, tNew, tTried, nNew, nTried, counts) && SameButPos(m0, m)
    requires id in m && !m[id].fInTried && m[id].nRefCount == 0
    ensures Whole(env, m - {id}, a - {m[id].addr.service}, tNew, tTried, nNew - 1, nTried,
                  Bump(counts, env.network(m[id].addr.service.ip), -1, 0))
  {
    hide AddrIndex, NewTable, TriedTable, Counts, Bump;
    TablesFrame(env, m0, m, a, tNew, tTried);
    AddrMan.AddrRemoved(m, a, id);
    AddrMan.NewRemoved(env, m, tNew, id);
    AddrMan.TriedRemoved(env, m, tTried, id);
    AddrMan.CountsRemove(env, m0, m, {}, nNew, nTried, counts, id);
  }

  lemma PlainIndex(m: InfoMap, v: seq<int>, t: Table)
    requires Plain(m, v)
    ensures RandomIndex(Counted(m, t), v)
  {
    assert forall i :: 0 <= i < |v| ==> RandomAt(v, i) == i;
  }

  // The state a clean stream loads to: all indexes agree and nothing is lost.
  ghost predicate Loaded(env: Env, s: Stream, x: State) {
    && var pairs := Flat(s.buckets, |s.buckets|, |s.newEntries|);
    && PairsOk(pairs, |s.newEntries|, |s.buckets|)
    && x.tNew == Restored(env, s.newEntries, pairs, |pairs|)
    && x.tTried == TriedRestored(env, s.triedEntries, |s.newEntries|, |s.triedEntries|)
    && x.m == Counted(BothInfo(s, |s.triedEntries|), x.tNew)
    && x.nIdCount == |s.newEntries| + |s.triedEntries| && x.nNew == |s.newEntries| && x.nTried == |s.triedEntries|
    && Agrees(env, x)
  }

  ghost predicate Agrees(env: Env, x: State) {
    && AddrIndex(x.m, x.a)
    && RandomIndex(x.m, x.v)
    && NewTable(env, x.m, x.tNew)
    && TriedTable(env, x.m, x.tTried)
    && Fields(env, x.m, x.nIdCount, {})
    && Counts(env, x.m, {}, x.nNew, x.nTried, x.counts)
  }

  lemma CleanNoLoss(env: Env, s: Stream)
    requires Clean(env, s)
    ensures NoLoss(env, s.newEntries, Flat(s.buckets, |s.buckets|, |s.newEntries|))
    ensures |s.buckets| == NEW_BUCKET_COUNT && s.asmapChecksum == env.asmapChecksum && !env.keyIsNull
  {}

  lemma RestoreReady(s: Stream, m1: InfoMap, m: InfoMap, v: seq<int>, pairs: seq<(int, int)>)
    requires m1 == NewInfo(s.newEntries, |s.newEntries|) && Plain(m, v)
    requires forall k :: 0 <= k < |s.newEntries| ==> k in m && m[k] == m1[k]
    requires pairs == Flat(s.buckets, |s.buckets|, |s.newEntries|)
    ensures forall k :: 0 <= k < |s.newEntries| ==>
              k in m && m[k].addr == s.newEntries[k].addr && m[k].source == s.newEntries[k].source
    ensures forall id :: id in m ==> m[id].nRefCount == 0
    ensures PairsOk(pairs, |s.newEntries|, |s.buckets|)
  {
    FlatOk(s.buckets, |s.buckets|, |s.newEntries|);
  }

  lemma CleanNewTable(env: Env, s: Stream, m: InfoMap, t: Table)
    requires Clean(env, s) && m == BothInfo(s, |s.triedEntries|)
    requires var pairs := Flat(s.buckets, |s.buckets|, |s.newEntries|); t == Restored(env, s.newEntries, pairs, |pairs|)
    ensures NewTable(env, Counted(m, t), t)
    ensures forall slot :: slot in t ==> 0 <= IdAt(t, slot) < |s.newEntries|
  {
    var pairs := Flat(s.buckets, |s.buckets|, |s.newEntries|);
    forall slot | slot in t
      ensures 0 <= IdAt(t, slot) < |s.newEntries| && IdAt(t, slot) in Counted(m, t) && 0 <= slot.0 < NEW_BUCKET_COUNT
      ensures slot.1 == env.Position(true, slot.0, Counted(m, t)[IdAt(t, slot)].addr.service)
    {
      RestoredAt(env, s.newEntries, pairs, |pairs|, slot);
      var j :| 0 <= j < |pairs| && slot == SlotOf(env, s.newEntries, pairs[j]) && t[slot] == pairs[j].1;
      CountedAt(m, t, IdAt(t, slot));
    }
  }

  lemma CleanTriedTable(env: Env, s: Stream, m: InfoMap, tTried: Table)
    requires Clean(env, s) && m == BothInfo(s, |s.triedEntries|)
    requires tTried == TriedRestored(env, s.triedEntries, |s.newEntries|, |s.triedEntries|)
    ensures TriedTable(env, m, tTried)
  {
    hide Env.TriedSlot, TriedRestored, BothInfo;
    var nNew, nTried := |s.newEntries|, |s.triedEntries|;
    forall slot | slot in tTried
      ensures var id := IdAt(tTried, slot); id in m && m[id].fInTried && slot == env.TriedSlot(m[id].addr.service)
    {
      TriedRestoredAt(env, s.triedEntries, nNew, nTried, slot);
      var j :| 0 <= j < nTried && slot == env.TriedSlot(s.triedEntries[j].addr.service) && tTried[slot] == nNew + j;
      TriedInfoAt(s, j);
    }
    forall id | id in m && m[id].fInTried
      ensures env.TriedSlot(m[id].addr.service) in tTried && IdAt(tTried, env.TriedSlot(m[id].addr.service)) == id
    {
      TriedIdAt(s, id);
      TriedRestoredHas(env, s.triedEntries, nNew, nTried, id - nNew);
    }
  }

  lemma TriedInfoAt(s: Stream, j: nat)
    requires j < |s.triedEntries|
    ensures var m, id := BothInfo(s, |s.triedEntries|), |s.newEntries| + j;
            id in m && m[id].fInTried && m[id].addr == s.triedEntries[j].addr
  {
    var d, id := s.triedEntries[j], |s.newEntries| + j;
    assert BothInfo(s, |s.triedEntries|)[id] == FromDisk(d).(nRandomPos := id, fInTried := true);
  }

  lemma TriedIdAt(s: Stream, id: int)
    requires id in BothInfo(s, |s.triedEntries|) && BothInfo(s, |s.triedEntries|)[id].fInTried
    ensures |s.newEntries| <= id < |s.newEntries| + |s.triedEntries|
    ensures BothInfo(s, |s.triedEntries|)[id].addr == s.triedEntries[id - |s.newEntries|].addr
  {
    if id >= |s.newEntries| {
      TriedInfoAt(s, id - |s.newEntries|);
    }
  }

  lemma TriedTableFrame(env: Env, m: InfoMap, m': InfoMap, t: Table)
    requires SameTable(m, m') && TriedTable(env, m, t)
    ensures TriedTable(env, m', t)
  {}

  lemma AddrIndexFrame(m: InfoMap, m': InfoMap, a: map<Service, int>)
    requires SameTable(m, m') && AddrIndex(m, a)
    ensures AddrIndex(m', a)
  {}

  lemma CountedSameTable(m: InfoMap, t: Table)
    ensures SameTable(m, Counted(m, t))
  {}

  lemma CleanFields(env: Env, s: Stream, m: InfoMap, t: Table)
    requires Clean(env, s) && m == BothInfo(s, |s.triedEntries|)
    requires var pairs := Flat(s.buckets, |s.buckets|, |s.newEntries|); t == Restored(env, s.newEntries, pairs, |pairs|)
    requires forall slot :: slot in t ==> 0 <= IdAt(t, slot) < |s.newEntries|
    ensures Fields(env, Counted(m, t), |s.newEntries| + |s.triedEntries|, {})
  {
    forall id | id in m
      ensures m[id].fInTried <==> id >= |s.newEntries|
      ensures env.valid(m[id].addr.service.ip) && m[id].lastTry == 0 && m[id].lastSuccess >= 0
      ensures m[id].fInTried ==> m[id].lastSuccess > 0 && |SlotsOf(t, id)| == 0
      ensures !m[id].fInTried ==> 1 <= |SlotsOf(t, id)| <= NEW_BUCKETS_PER_ADDRESS
    {
      if id < |s.newEntries| {
        var d := s.newEntries[id];
        assert m[id] == FromDisk(d).(nRandomPos := id);
      } else {
        var d := s.triedEntries[id - |s.newEntries|];
        assert m[id] == FromDisk(d).(nRandomPos := id, fInTried := true);
        assert SlotsOf(t, id) == {};
      }
    }
  }

  ghost function Range(lo: int, hi: int): set<int>
    requires lo <= hi
    decreases hi - lo
  {
    if lo == hi then {} else Range(lo, hi - 1) + {hi - 1}
  }

  lemma {:induction false} RangeFacts(lo: int, hi: int)
    requires lo <= hi
    ensures |Range(lo, hi)| == hi - lo
    ensures forall i :: i in Range(lo, hi) <==> lo <= i < hi
    decreases hi - lo
  {
    if lo < hi {
      RangeFacts(lo, hi - 1);
    }
  }

  lemma BothCounts(s: Stream, m: InfoMap)
    requires m == BothInfo(s, |s.triedEntries|)
    ensures |NewIds(m, {})| == |s.newEntries| && |TriedIds(m)| == |s.triedEntries|
  {
    var nNew, n := |s.newEntries|, |s.newEntries| + |s.triedEntries|;
    forall id | id in m ensures m[id].fInTried <==> id >= nNew {
      if id < nNew {
        assert m[id] == FromDisk(s.newEntries[id]).(nRandomPos := id);
      } else {
        var d := s.triedEntries[id - nNew];
        assert m[id] == FromDisk(d).(nRandomPos := id, fInTried := true);
      }
    }
    RangeFacts(0, nNew);
    RangeFacts(nNew, n);
    assert forall id :: id in NewIds(m, {}) <==> id in Range(0, nNew);
    assert NewIds(m, {}) == Range(0, nNew);
    assert forall id :: id in TriedIds(m) <==> id in Range(nNew, n);
    assert TriedIds(m) == Range(nNew, n);
  }

  lemma CleanAgrees(env: Env, s: Stream, m: InfoMap, a: map<Service, int>, v: seq<int>, tNew: Table, tTried: Table,
                    nTried: int, counts: NetCounts)
    requires Clean(env, s) && LoadedTried(env, s, |s.triedEntries|, m, a, v, tTried, nTried, counts) && Plain(m, v)
    requires var pairs := Flat(s.buckets, |s.buckets|, |s.newEntries|);
             tNew == Restored(env, s.newEntries, pairs, |pairs|)
    ensures Loaded(env, s, State(Counted(m, tNew), a, v, tNew, tTried, |v|, |s.newEntries|, nTried, counts))
    ensures forall id :: id in Counted(m, tNew) ==> InSomeTable(Counted(m, tNew)[id])
    ensures AddrCheck.Consistent(env, Counted(m, tNew), a, v, tNew, tTried, |s.newEntries|, nTried, counts)
  {
    hide NewTable, TriedTable, AddrIndex, RandomIndex, Counts, Fields, Restored, TriedRestored, Clean, BothInfo,
         Counted, Plain;
    var m' := Counted(m, tNew);
    FlatOk(s.buckets, |s.buckets|, |s.newEntries|);
    CleanNoLoss(env, s);
    CleanPieces(env, s, m, a, v, tNew, tTried, counts);
    NothingToPrune(env, m', |v|);
    assert Agrees(env, State(m', a, v, tNew, tTried, |v|, |s.newEntries|, nTried, counts));
    hide AddrCheck.Consistent;
    AddrCheck.AgreeingIsConsistent(env, m', a, v, tNew, tTried, |v|, |s.newEntries|, nTried, counts);
  }

  lemma NothingToPrune(env: Env, m: InfoMap, nIdCount: int)
    requires Fields(env, m, nIdCount, {})
    ensures forall id :: id in m ==> InSomeTable(m[id])
  {}

  lemma CleanPieces(env: Env, s: Stream, m: InfoMap, a: map<Service, int>, v: seq<int>, tNew: Table, tTried: Table,
                    counts: NetCounts)
    requires Clean(env, s) && LoadedTried(env, s, |s.triedEntries|, m, a, v, tTried, |s.triedEntries|, counts)
    requires Plain(m, v)
    requires var pairs := Flat(s.buckets, |s.buckets|, |s.newEntries|);
             tNew == Restored(env, s.newEntries, pairs, |pairs|)
    ensures var m' := Counted(m, tNew);
            && AddrIndex(m', a) && RandomIndex(m', v) && NewTable(env, m', tNew) && TriedTable(env, m', tTried)
            && Fields(env, m', |v|, {}) && Counts(env, m', {}, |s.newEntries|, |s.triedEntries|, counts)
  {
    hide NewTable, TriedTable, AddrIndex, RandomIndex, Fields, Restored, TriedRestored, Clean, BothInfo, Plain;
    var m' := Counted(m, tNew);
    CountedSameTable(m, tNew);
    AddrIndexFrame(m, m', a);
    PlainIndex(m, v, tNew);
    CleanNewTable(env, s, m, tNew);
    CleanTriedTable(env, s, m, tTried);
    TriedTableFrame(env, m, m', tTried);
    CleanFields(env, s, m, tNew);
    BothCounts(s, m);
    CountsFrame(env, m, m', {}, |s.newEntries|, |s.triedEntries|, counts);
  }

  // Either the load fails, or what it built passes the consistency check.  A clean stream
  // loads completely; a sound one is accepted and loses entries only to others in their slots.
  method Unserialize(env: Env, s: Stream) returns (r: Option<State>)
    ensures r.Some? ==> var x := r.value;
            AddrCheck.Consistent(env, x.m, x.a, x.v, x.tNew, x.tTried, x.nNew, x.nTried, x.counts)
    ensures Clean(env, s) ==> r.Some? && Loaded(env, s, r.value)
    ensures Sound(env, s) ==> r.Some? && Agrees(env, r.value) && OnlyCollisionsLost(env, s, r.value)
  {
    hide Restored, TriedRestored, BothInfo, NewInfo, Counted, Flat, RandomIndex, AddrIndex, NetCountsOk, NoLoss,
         Plain, LoadedTried, AddrCheck.Consistent, Loaded, DistinctServices, TriedPart, FiledRight, AllTouched,
         Whole, Pruned, Agrees, OnlyCollisionsLost;
    if |s.newEntries| > NEW_BUCKET_COUNT * BUCKET_SIZE || |s.triedEntries| > TRIED_BUCKET_COUNT * BUCKET_SIZE {
      return None;
    }
    hide Clean, Sound;
    var m, a, v, counts := LoadNew(env, s.newEntries);
    ghost var m1 := m;
    var tTried, nTried;
    m, a, v, tTried, nTried, counts := LoadTried(env, s, m, a, v, counts);
    ghost var m2, a2, v2, counts2 := m, a, v, counts;
    var nIdCount := |v|;
    var pairs := CollectPairs(s.buckets, |s.newEntries|);
    var restoreBucketing := |s.buckets| == NEW_BUCKET_COUNT && s.asmapChecksum == env.asmapChecksum;
    RestoreReady(s, m1, m, v, pairs);
    var tNew;
    m, tNew := Restore(env, s.newEntries, m, pairs, restoreBucketing);
    PlainIndex(m2, v, tNew);
    if Clean(env, s) {
      CleanNoLoss(env, s);
      LoadedTriedCount(env, s, m2, a, v, tTried, nTried, counts);
      CleanAgrees(env, s, m2, a, v, tNew, tTried, nTried, counts);
    }
    if Sound(env, s) {
      BuiltWhole(env, s, m2, a, v, tNew, tTried, nTried, counts);
    }
    var nNew := |s.newEntries|;
    m, a, v, counts, nNew := Prune(env, m, a, v, counts, nNew, tNew, tTried, nTried);
    ghost var x := State(m, a, v, tNew, tTried, nIdCount, nNew, nTried, counts);
    if Sound(env, s) {
      BuiltAgrees(env, s, m2, a2, v2, pairs, restoreBucketing, counts2, x);
    }
    var err := AddrCheck.CheckAddrman(env, m, a, v, tNew, tTried, nNew, nTried, counts);
    if err != 0 {
      return None;
    }
    r := Some(State(m, a, v, tNew, tTried, nIdCount, nNew, nTried, counts));
  }

  lemma LoadedTriedCount(env: Env, s: Stream, m: InfoMap, a: map<Service, int>, v: seq<int>, tTried: Table,
                         nTried: int, counts: NetCounts)
    requires LoadedTried(env, s, |s.triedEntries|, m, a, v, tTried, nTried, counts)
    ensures nTried == |s.triedEntries|
  {}

  // ---- streams from which something is lost ----

  // No address twice, and success times as the tables demand.
  ghost predicate Sound(env: Env, s: Stream) {
    && !env.keyIsNull
    && |s.newEntries| <= NEW_BUCKET_COUNT * BUCKET_SIZE
    && |s.triedEntries| <= TRIED_BUCKET_COUNT * BUCKET_SIZE
    && DistinctServices(s.newEntries + s.triedEntries)
    && (forall k :: 0 <= k < |s.newEntries| ==> s.newEntries[k].lastSuccess >= 0)
    && (forall k :: 0 <= k < |s.triedEntries| ==> s.triedEntries[k].lastSuccess > 0)
  }

  // An entry loaded from the tried list.
  ghost predicate FromTried(env: Env, s: Stream, n: nat, id: int, info: Info) {
    exists j :: && 0 <= j < n && j < |s.triedEntries| && env.valid(s.triedEntries[j].addr.service.ip)
                && info == FromDisk(s.triedEntries[j]).(nRandomPos := id, fInTried := true)
  }

  // After n entries of the tried list, `kept` of which found their slot free.
  ghost predicate TriedPart(env: Env, s: Stream, n: nat, m: InfoMap, a: map<Service, int>, tTried: Table,
                            kept: int, counts: NetCounts) {
    && n <= |s.triedEntries|
    && AddrIndex(m, a) && TriedTable(env, m, tTried) && NetCountsOk(env, m, {}, counts)
    && |TriedIds(m)| == kept
    && (forall k :: 0 <= k < |s.newEntries| ==> k in m && m[k] == FromDisk(s.newEntries[k]).(nRandomPos := k))
    && (forall id :: id in m && !(0 <= id < |s.newEntries|) ==> FromTried(env, s, n, id, m[id]))
    && (forall j :: 0 <= j < n && env.valid(s.triedEntries[j].addr.service.ip) ==>
        env.TriedSlot(s.triedEntries[j].addr.service) in tTried)
  }

  // Slots hold valid entries at the positions they hash to, none of them too often.
  ghost predicate FiledRight(env: Env, entries: seq<Disk>, t: Table) {
    && (forall slot :: slot in t ==>
          && 0 <= IdAt(t, slot) < |entries| && env.valid(entries[IdAt(t, slot)].addr.service.ip)
          && 0 <= slot.0 < NEW_BUCKET_COUNT
          && slot.1 == env.Position(true, slot.0, entries[IdAt(t, slot)].addr.service))
    && (forall id :: |SlotsOf(t, id)| <= NEW_BUCKETS_PER_ADDRESS)
  }

  // The entry of a pair is in some slot, or every slot it could go to is taken.
  ghost predicate Touched(env: Env, entries: seq<Disk>, t: Table, p: (int, int), restore: bool)
    requires 0 <= p.1 < |entries|
  {
    || !env.valid(entries[p.1].addr.service.ip)
    || |SlotsOf(t, p.1)| > 0
    || (env.NewSlot(entries[p.1].addr.service, entries[p.1].source) in t && (restore ==> SlotOf(env, entries, p) in t))
  }

  ghost predicate AllTouched(env: Env, entries: seq<Disk>, t: Table, pairs: seq<(int, int)>, restore: bool, n: nat) {
    n <= |pairs| && forall k :: 0 <= k < n ==>
      0 <= pairs[k].1 < |entries| && Touched(env, entries, t, pairs[k], restore)
  }

  // What a load keeps: every entry comes from the stream; a valid tried entry is missing only
  // if its slot is taken, and a valid new entry named by a bucket only if its slots are taken.
  ghost predicate OnlyCollisionsLost(env: Env, s: Stream, x: State) {
    && (forall id :: id in x.m ==> ToDisk(x.m[id]) in s.newEntries + s.triedEntries)
    && (forall j :: 0 <= j < |s.triedEntries| && env.valid(s.triedEntries[j].addr.service.ip) ==>
          || Keeps(x, s.triedEntries[j], true)
          || (env.TriedSlot(s.triedEntries[j].addr.service) in x.tTried && s.triedEntries[j].addr.service !in x.a))
    && var pairs := Flat(s.buckets, |s.buckets|, |s.newEntries|);
    && var restore := |s.buckets| == NEW_BUCKET_COUNT && s.asmapChecksum == env.asmapChecksum;
    && PairsOk(pairs, |s.newEntries|, |s.buckets|)
    && (forall k :: 0 <= k < |pairs| && env.valid(s.newEntries[pairs[k].1].addr.service.ip) ==>
          var d := s.newEntries[pairs[k].1];
          || Keeps(x, d, false)
          || (env.NewSlot(d.addr.service, d.source) in x.tNew
              && (restore ==> SlotOf(env, s.newEntries, pairs[k]) in x.tNew)))
  }

  ghost predicate Keeps(x: State, d: Disk, tried: bool) {
    d.addr.service in x.a && var id := IdOf(x.a, d.addr.service);
    id in x.m && ToDisk(x.m[id]) == d && x.m[id].fInTried == tried
  }

  lemma TriedStart(env: Env, s: Stream, m: InfoMap, a: map<Service, int>, counts: NetCounts)
    requires Sound(env, s) && m == NewInfo(s.newEntries, |s.newEntries|)
    requires NetCountsOk(env, m, {}, counts) && (DistinctServices(s.newEntries) ==> AddrIndex(m, a))
    ensures TriedPart(env, s, 0, m, a, map[], 0, counts)
  {
    hide NetCountsOk, AddrIndex;
    NewServicesDistinct(s);
    forall id ensures id !in TriedIds(m) {
      assert id in m ==> m[id] == FromDisk(s.newEntries[id]).(nRandomPos := id);
    }
    assert TriedIds(m) == {};
  }

  // The next tried address is not among the entries loaded so far.
  lemma ServiceIsNew(env: Env, s: Stream, n: nat, m: InfoMap, a: map<Service, int>, tTried: Table, kept: int,
                     counts: NetCounts)
    requires Sound(env, s) && TriedPart(env, s, n, m, a, tTried, kept, counts) && n < |s.triedEntries|
    ensures forall id :: id in m ==> m[id].addr.service != s.triedEntries[n].addr.service
  {
    hide NetCountsOk, AddrIndex, TriedTable;
    var all, nNew := s.newEntries + s.triedEntries, |s.newEntries|;
    assert all[nNew + n] == s.triedEntries[n];
    forall id | id in m ensures m[id].addr.service != s.triedEntries[n].addr.service {
      if 0 <= id < nNew {
        assert all[id] == s.newEntries[id];
        Differ(all, id, nNew + n);
      } else {
        var j := TriedSource(env, s, n, id, m[id]);
        assert all[nNew + j] == s.triedEntries[j];
        Differ(all, nNew + j, nNew + n);
      }
    }
  }

  lemma Differ(entries: seq<Disk>, j: nat, k: nat)
    requires DistinctServices(entries) && j < |entries| && k < |entries|
    ensures entries[j].addr.service == entries[k].addr.service ==> j == k
  {}

  lemma TriedSource(env: Env, s: Stream, n: nat, id: int, info: Info) returns (j: nat)
    requires FromTried(env, s, n, id, info)
    ensures j < n && j < |s.triedEntries| && env.valid(info.addr.service.ip)
    ensures ToDisk(info) == s.triedEntries[j] && info.lastTry == 0 && info.fInTried
    ensures info.addr == s.triedEntries[j].addr
  {
    j :| && 0 <= j < n && j < |s.triedEntries| && env.valid(s.triedEntries[j].addr.service.ip)
         && info == FromDisk(s.triedEntries[j]).(nRandomPos := id, fInTried := true);
    var d := s.triedEntries[j];
    assert info == FromDisk(d).(nRandomPos := id, fInTried := true);
  }

  lemma FromTriedMore(env: Env, s: Stream, n: nat, n': nat, id: int, info: Info)
    requires FromTried(env, s, n, id, info) && n <= n'
    ensures FromTried(env, s, n', id, info)
  {}

  lemma FromTriedLast(env: Env, s: Stream, n: nat, id: int)
    requires n < |s.triedEntries| && env.valid(s.triedEntries[n].addr.service.ip)
    ensures FromTried(env, s, n + 1, id, FromDisk(s.triedEntries[n]).(nRandomPos := id, fInTried := true))
  {}

  lemma TriedAdded(env: Env, m: InfoMap, t: Table, id: int, info: Info)
    requires TriedTable(env, m, t) && id !in m && info.fInTried && env.TriedSlot(info.addr.service) !in t
    ensures TriedTable(env, m[id := info], t[env.TriedSlot(info.addr.service) := id])
  {
    var slot := env.TriedSlot(info.addr.service);
    assert forall s :: s in t ==> IdAt(t[slot := id], s) == IdAt(t, s);
  }

  lemma TriedCountAdded(m: InfoMap, id: int, info: Info)
    requires id !in m && info.fInTried
    ensures |TriedIds(m[id := info])| == |TriedIds(m)| + 1
  {
    OneElement(TriedIds(m), TriedIds(m[id := info]), id);
  }

  lemma TriedNext(env: Env, s: Stream, n: nat, m: InfoMap, a: map<Service, int>, v: seq<int>, tTried: Table,
                  kept: int, counts: NetCounts)
    requires Sound(env, s) && TriedPart(env, s, n, m, a, tTried, kept, counts) && n < |s.triedEntries|
    requires Plain(m, v) && |v| >= |s.newEntries|
    ensures var service := s.triedEntries[n].addr.service;
            var slot := env.TriedSlot(service);
            var info := FromDisk(s.triedEntries[n]).(nRandomPos := |v|, fInTried := true);
            if env.valid(service.ip) && slot !in tTried
            then TriedPart(env, s, n + 1, m[|v| := info], a[service := |v|], tTried[slot := |v|], kept + 1,
                           Bump(counts, env.network(service.ip), 0, 1))
            else TriedPart(env, s, n + 1, m, a, tTried, kept, counts)
  {
    hide NetCountsOk, AddrIndex, TriedTable, TriedIds, Sound, DistinctServices, FromTried, Bump;
    var service := s.triedEntries[n].addr.service;
    var slot := env.TriedSlot(service);
    var id := |v|;
    forall k | k in m && !(0 <= k < |s.newEntries|) ensures FromTried(env, s, n + 1, k, m[k]) {
      FromTriedMore(env, s, n, n + 1, k, m[k]);
    }
    if env.valid(service.ip) && slot !in tTried {
      var info := FromDisk(s.triedEntries[n]).(nRandomPos := id, fInTried := true);
      ServiceIsNew(env, s, n, m, a, tTried, kept, counts);
      AddrInsert(m, a, id, info);
      TriedAdded(env, m, tTried, id, info);
      TriedCountAdded(m, id, info);
      CountsInsert(env, m, id, info, counts);
      FromTriedLast(env, s, n, id);
    }
  }

  lemma FiledNone(env: Env, entries: seq<Disk>, pairs: seq<(int, int)>, restore: bool)
    ensures FiledRight(env, entries, map[]) && AllTouched(env, entries, map[], pairs, restore, 0)
  {
    forall id ensures |SlotsOf(map[], id)| == 0 {
      assert SlotsOf(map[], id) == {};
    }
  }

  lemma TouchedNext(env: Env, entries: seq<Disk>, t: Table, pairs: seq<(int, int)>, restore: bool, k: nat)
    requires AllTouched(env, entries, t, pairs, restore, k) && k < |pairs| && 0 <= pairs[k].1 < |entries|
    requires Touched(env, entries, t, pairs[k], restore)
    ensures AllTouched(env, entries, t, pairs, restore, k + 1)
  {}

  // Filing an entry in a free slot it hashes to.
  lemma FiledAdd(env: Env, entries: seq<Disk>, t: Table, pairs: seq<(int, int)>, restore: bool, k: nat, slot: Slot)
    requires FiledRight(env, entries, t) && AllTouched(env, entries, t, pairs, restore, k) && slot !in t
    requires k < |pairs| && 0 <= pairs[k].1 < |entries| && env.valid(entries[pairs[k].1].addr.service.ip)
    requires |SlotsOf(t, pairs[k].1)| < NEW_BUCKETS_PER_ADDRESS
    requires 0 <= slot.0 < NEW_BUCKET_COUNT && slot.1 == env.Position(true, slot.0, entries[pairs[k].1].addr.service)
    ensures FiledRight(env, entries, t[slot := pairs[k].1])
    ensures AllTouched(env, entries, t[slot := pairs[k].1], pairs, restore, k + 1)
  {
    hide SlotsOf;
    var t' := t[slot := pairs[k].1];
    SlotsAdd(t, slot, pairs[k].1);
    forall s | s in t'
      ensures 0 <= IdAt(t', s) < |entries| && env.valid(entries[IdAt(t', s)].addr.service.ip)
      ensures 0 <= s.0 < NEW_BUCKET_COUNT && s.1 == env.Position(true, s.0, entries[IdAt(t', s)].addr.service)
    {
      assert s != slot ==> s in t && IdAt(t', s) == IdAt(t, s);
    }
    forall id ensures |SlotsOf(t', id)| <= NEW_BUCKETS_PER_ADDRESS {
      assert |SlotsOf(t, id)| <= NEW_BUCKETS_PER_ADDRESS;
    }
    forall j | 0 <= j < k ensures 0 <= pairs[j].1 < |entries| && Touched(env, entries, t', pairs[j], restore) {
      assert Touched(env, entries, t, pairs[j], restore);
    }
  }

  lemma BuiltNewTable(env: Env, entries: seq<Disk>, m: InfoMap, t: Table)
    requires FiledRight(env, entries, t) && forall k :: 0 <= k < |entries| ==> k in m && m[k].addr == entries[k].addr
    ensures NewTable(env, Counted(m, t), t)
  {
    forall slot | slot in t
      ensures IdAt(t, slot) in Counted(m, t) && 0 <= slot.0 < NEW_BUCKET_COUNT
      ensures slot.1 == env.Position(true, slot.0, Counted(m, t)[IdAt(t, slot)].addr.service)
    {
      CountedAt(m, t, IdAt(t, slot));
    }
  }

  lemma BuiltNewIds(env: Env, s: Stream, m: InfoMap, a: map<Service, int>, tTried: Table, kept: int, counts: NetCounts)
    requires TriedPart(env, s, |s.triedEntries|, m, a, tTried, kept, counts)
    ensures |NewIds(m, {})| == |s.newEntries|
  {
    hide NetCountsOk, AddrIndex, TriedTable, TriedIds;
    RangeFacts(0, |s.newEntries|);
    forall id ensures id in NewIds(m, {}) <==> id in Range(0, |s.newEntries|) {
      if id in m && !(0 <= id < |s.newEntries|) {
        assert FromTried(env, s, |s.triedEntries|, id, m[id]);
      }
    }
    assert NewIds(m, {}) == Range(0, |s.newEntries|);
  }

  lemma BuiltWhole(env: Env, s: Stream, m: InfoMap, a: map<Service, int>, v: seq<int>, tNew: Table, tTried: Table,
                   nTried: int, counts: NetCounts)
    requires Sound(env, s) && TriedPart(env, s, |s.triedEntries|, m, a, tTried, nTried, counts)
    requires FiledRight(env, s.newEntries, tNew)
    ensures Whole(env, Counted(m, tNew), a, tNew, tTried, |s.newEntries|, nTried, counts)
  {
    hide NewTable, TriedTable, AddrIndex, NetCountsOk, FiledRight, Counted, NewIds, TriedIds, Sound, FromTried;
    var m' := Counted(m, tNew);
    CountedSameTable(m, tNew);
    AddrIndexFrame(m, m', a);
    TriedTableFrame(env, m, m', tTried);
    BuiltNewTable(env, s.newEntries, m, tNew);
    BuiltNewIds(env, s, m, a, tTried, nTried, counts);
    CountsFrame(env, m, m', {}, |s.newEntries|, nTried, counts);
  }

  // The fields of an entry that is in some table.
  lemma BuiltField(env: Env, s: Stream, m: InfoMap, a: map<Service, int>, v: seq<int>, tNew: Table, tTried: Table,
                   nTried: int, counts: NetCounts, id: int)
    requires Sound(env, s) && TriedPart(env, s, |s.triedEntries|, m, a, tTried, nTried, counts) && Plain(m, v)
    requires FiledRight(env, s.newEntries, tNew) && id in m
    ensures id in Counted(m, tNew)
    ensures var i := Counted(m, tNew)[id];
            && 0 <= id < |v| && ToDisk(i) in s.newEntries + s.triedEntries && i.lastTry == 0 && i.lastSuccess >= 0
            && (i.fInTried ==> i.lastSuccess > 0 && i.nRefCount == 0 && env.valid(i.addr.service.ip))
            && (!i.fInTried ==> 0 <= i.nRefCount <= NEW_BUCKETS_PER_ADDRESS)
            && (!i.fInTried && i.nRefCount > 0 ==> env.valid(i.addr.service.ip))
            && (i.fInTried <==> id >= |s.newEntries|)
  {
    hide NetCountsOk, AddrIndex, TriedTable, TriedIds, DistinctServices;
    CountedAt(m, tNew, id);
    var all, nNew := s.newEntries + s.triedEntries, |s.newEntries|;
    if id < nNew {
      assert all[id] == s.newEntries[id] == ToDisk(m[id]);
      if |SlotsOf(tNew, id)| > 0 {
        HasSlot(SlotsOf(tNew, id));
        var slot :| slot in SlotsOf(tNew, id);
      }
    } else {
      var j := TriedSource(env, s, |s.triedEntries|, id, m[id]);
      assert all[nNew + j] == s.triedEntries[j];
      assert SlotsOf(tNew, id) == {};
    }
  }

  lemma HasSlot(s: set<Slot>)
    requires |s| >= 1
    ensures exists x :: x in s
  {
    var e: set<Slot> := {};
    assert (forall x :: x in s <==> x in e) ==> s == e;
  }

  lemma BuiltFields(env: Env, s: Stream, m: InfoMap, a: map<Service, int>, v: seq<int>, tNew: Table, tTried: Table,
                    nTried: int, counts: NetCounts, m': InfoMap)
    requires Sound(env, s) && TriedPart(env, s, |s.triedEntries|, m, a, tTried, nTried, counts) && Plain(m, v)
    requires FiledRight(env, s.newEntries, tNew) && Pruned(Counted(m, tNew), m')
    ensures Fields(env, m', |v|, {}) && forall id :: id in m' ==> ToDisk(m'[id]) in s.newEntries + s.triedEntries
  {
    hide Sound, TriedPart, Plain, FiledRight, Counted;
    forall id | id in m'
      ensures && 0 <= id < |v| && env.valid(m'[id].addr.service.ip) && m'[id].lastTry >= 0 && m'[id].lastSuccess >= 0
              && (m'[id].fInTried ==> m'[id].lastSuccess > 0 && m'[id].nRefCount == 0)
              && (!m'[id].fInTried ==> 1 <= m'[id].nRefCount <= NEW_BUCKETS_PER_ADDRESS)
              && ToDisk(m'[id]) in s.newEntries + s.triedEntries
    {
      CountedKeys(m, tNew, id);
      BuiltField(env, s, m, a, v, tNew, tTried, nTried, counts, id);
    }
  }

  lemma CountedKeys(m: InfoMap, t: Table, id: int)
    ensures id in Counted(m, t) <==> id in m
  {}

  // A tried entry is kept, or its slot is taken.
  lemma TriedKept(env: Env, s: Stream, m: InfoMap, a: map<Service, int>, v: seq<int>, nTried: int,
                  counts: NetCounts, x: State, j: nat)
    requires Sound(env, s) && TriedPart(env, s, |s.triedEntries|, m, a, x.tTried, nTried, counts)
    requires Pruned(Counted(m, x.tNew), x.m) && AddrIndex(x.m, x.a)
    requires j < |s.triedEntries| && env.valid(s.triedEntries[j].addr.service.ip)
    ensures || Keeps(x, s.triedEntries[j], true)
            || (env.TriedSlot(s.triedEntries[j].addr.service) in x.tTried && s.triedEntries[j].addr.service !in x.a)
  {
    hide NetCountsOk, TriedTable, TriedIds;
    var d := s.triedEntries[j];
    if d.addr.service in x.a {
      var id := IdOf(x.a, d.addr.service);
      assert id in x.m && x.m[id].addr.service == d.addr.service;
      CountedKeys(m, x.tNew, id);
      CountedAt(m, x.tNew, id);
      EntryOfService(env, s, m, a, x.tTried, nTried, counts, id, |s.newEntries| + j);
    }
  }

  // An entry with the address of the k-th saved entry is that entry.
  lemma EntryOfService(env: Env, s: Stream, m: InfoMap, a: map<Service, int>, tTried: Table, nTried: int,
                       counts: NetCounts, id: int, k: nat)
    requires Sound(env, s) && TriedPart(env, s, |s.triedEntries|, m, a, tTried, nTried, counts) && id in m
    requires k < |s.newEntries + s.triedEntries|
    requires m[id].addr.service == (s.newEntries + s.triedEntries)[k].addr.service
    ensures ToDisk(m[id]) == (s.newEntries + s.triedEntries)[k] && (m[id].fInTried <==> k >= |s.newEntries|)
  {
    hide NetCountsOk, TriedTable, TriedIds, AddrIndex;
    var all, nNew := s.newEntries + s.triedEntries, |s.newEntries|;
    if 0 <= id < nNew {
      assert all[id] == s.newEntries[id];
      Differ(all, id, k);
    } else {
      var j := TriedSource(env, s, |s.triedEntries|, id, m[id]);
      assert all[nNew + j] == s.triedEntries[j];
      Differ(all, nNew + j, k);
    }
  }

  // A new entry named by a pair is kept, or its slots are taken.
  lemma NewKept(env: Env, s: Stream, m: InfoMap, a: map<Service, int>, v: seq<int>, nTried: int, counts: NetCounts,
                x: State, p: (int, int), restore: bool)
    requires Sound(env, s) && TriedPart(env, s, |s.triedEntries|, m, a, x.tTried, nTried, counts) && Plain(m, v)
    requires Pruned(Counted(m, x.tNew), x.m) && AddrIndex(x.m, x.a)
    requires 0 <= p.1 < |s.newEntries| && env.valid(s.newEntries[p.1].addr.service.ip)
    requires Touched(env, s.newEntries, x.tNew, p, restore)
    ensures var d := s.newEntries[p.1];
            || Keeps(x, d, false)
            || (env.NewSlot(d.addr.service, d.source) in x.tNew && (restore ==> SlotOf(env, s.newEntries, p) in x.tNew))
  {
    hide NetCountsOk, TriedTable, TriedIds, DistinctServices;
    var id := p.1;
    CountedAt(m, x.tNew, id);
    if |SlotsOf(x.tNew, id)| > 0 {
      assert id in x.m;
      assert x.m[id].addr.service in x.a && IdOf(x.a, x.m[id].addr.service) == id;
    }
  }

  lemma BuiltAgrees(env: Env, s: Stream, m: InfoMap, a: map<Service, int>, v: seq<int>, pairs: seq<(int, int)>,
                    restore: bool, counts: NetCounts, x: State)
    requires Sound(env, s) && TriedPart(env, s, |s.triedEntries|, m, a, x.tTried, x.nTried, counts) && Plain(m, v)
    requires pairs == Flat(s.buckets, |s.buckets|, |s.newEntries|) && PairsOk(pairs, |s.newEntries|, |s.buckets|)
    requires restore == (|s.buckets| == NEW_BUCKET_COUNT && s.asmapChecksum == env.asmapChecksum)
    requires FiledRight(env, s.newEntries, x.tNew) && AllTouched(env, s.newEntries, x.tNew, pairs, restore, |pairs|)
    requires Pruned(Counted(m, x.tNew), x.m) && RandomIndex(x.m, x.v) && x.nIdCount == |v|
    requires Whole(env, x.m, x.a, x.tNew, x.tTried, x.nNew, x.nTried, x.counts)
    ensures Agrees(env, x) && OnlyCollisionsLost(env, s, x)
    ensures AddrCheck.Consistent(env, x.m, x.a, x.v, x.tNew, x.tTried, x.nNew, x.nTried, x.counts)
  {
    hide NewTable, TriedTable, AddrIndex, RandomIndex, Counts, Fields, FiledRight, Counted, Pruned, TriedPart,
         Sound, Plain, Flat, Touched, Keeps, AddrCheck.Consistent;
    BuiltFields(env, s, m, a, v, x.tNew, x.tTried, x.nTried, counts, x.m);
    NotNullKey(env, s);
    AddrCheck.AgreeingIsConsistent(env, x.m, x.a, x.v, x.tNew, x.tTried, x.nIdCount, x.nNew, x.nTried, x.counts);
    forall j | 0 <= j < |s.triedEntries| && env.valid(s.triedEntries[j].addr.service.ip)
      ensures || Keeps(x, s.triedEntries[j], true)
              || (env.TriedSlot(s.triedEntries[j].addr.service) in x.tTried && s.triedEntries[j].addr.service !in x.a)
    {
      TriedKept(env, s, m, a, v, x.nTried, counts, x, j);
    }
    forall k | 0 <= k < |pairs| && env.valid(s.newEntries[pairs[k].1].addr.service.ip)
      ensures var d := s.newEntries[pairs[k].1];
              || Keeps(x, d, false)
              || (env.NewSlot(d.addr.service, d.source) in x.tNew
                  && (restore ==> SlotOf(env, s.newEntries, pairs[k]) in x.tNew))
    {
      NewKept(env, s, m, a, v, x.nTried, counts, x, pairs[k], restore);
    }
  }

  lemma NotNullKey(env: Env, s: Stream)
    requires Sound(env, s)
    ensures !env.keyIsNull
  {}
}
