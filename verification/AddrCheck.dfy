/** The address manager's own consistency check, as an executable scan over the
    indexes, and the declarative condition it decides. */
module AddrCheck {
  import opened Basics
  import opened AddrTables

  ghost predicate EntryConsistent(info: Info, id: int, a: map<Service, int>, v: seq<int>) {
    && (info.fInTried ==> info.lastSuccess != 0 && info.nRefCount == 0)
    && (!info.fInTried ==> 1 <= info.nRefCount <= NEW_BUCKETS_PER_ADDRESS)
    && info.addr.service in a && IdOf(a, info.addr.service) == id
    && 0 <= info.nRandomPos < |v| && RandomAt(v, info.nRandomPos) == id
    && info.lastTry >= 0 && info.lastSuccess >= 0
  }

  ghost predicate EntriesConsistent(m: InfoMap, a: map<Service, int>, v: seq<int>) {
    forall id :: id in m ==> EntryConsistent(m[id], id, a, v)
  }

  ghost function NetsOf(env: Env, m: InfoMap): set<Network> {
    set id | id in m :: env.network(m[id].addr.service.ip)
  }

  // The stored counts of the networks that have any; all-zero leftovers are allowed.
  ghost predicate NetsConsistent(env: Env, m: InfoMap, counts: NetCounts) {
    && |counts| >= |NetsOf(env, m)|
    && forall net :: net in counts ==> counts[net] == (|NewIdsOf(env, m, {}, net)|, |TriedIdsOf(env, m, net)|)
  }

  // What the check decides.
  ghost predicate Consistent(env: Env, m: InfoMap, a: map<Service, int>, v: seq<int>, tNew: Table, tTried: Table,
                             nNew: int, nTried: int, counts: NetCounts) {
    && |v| == nTried + nNew
    && EntriesConsistent(m, a, v)
    && nTried == |TriedIds(m)|
    && nNew == |NewIds(m, {})|
    && TriedTable(env, m, tTried)
    && NewTable(env, m, tNew)
    && !env.keyIsNull
    && NetsConsistent(env, m, counts)
  }

  // The tables are fixed-size arrays in the source.
  ghost predicate InRange(t: Table, buckets: int) {
    forall s :: s in t ==> 0 <= s.0 < buckets && 0 <= s.1 < BUCKET_SIZE
  }

  // ---- first pass: the entries ----

  ghost predicate Remaining(m: InfoMap, todo: InfoMap) {
    forall id :: id in todo ==> id in m && todo[id] == m[id]
  }

  // What the first pass has collected from the entries in `done`.
  ghost predicate Collected(env: Env, done: InfoMap, setTried: set<int>, mapNew: map<int, int>, local: NetCounts) {
    && (forall id :: id in setTried <==> id in done && done[id].fInTried)
    && (forall id :: id in mapNew <==> id in done && !done[id].fInTried)
    && (forall id :: id in mapNew ==> mapNew[id] == done[id].nRefCount)
    && (forall net :: net in local <==> net in NetsOf(env, done))
    && NetCountsOk(env, done, {}, local)
  }

  lemma CollectOne(env: Env, m: InfoMap, todo: InfoMap, id: int, setTried: set<int>, mapNew: map<int, int>,
                   local: NetCounts)
    requires Remaining(m, todo) && id in todo
    requires Collected(env, m - todo.Keys, setTried, mapNew, local)
    ensures var info, net := todo[id], env.network(todo[id].addr.service.ip);
            if info.fInTried
              then Collected(env, m - (todo - {id}).Keys, setTried + {id}, mapNew, Bump(local, net, 0, 1))
            else Collected(env, m - (todo - {id}).Keys, setTried, mapNew[id := info.nRefCount], Bump(local, net, 1, 0))
  {
    var done, done' := m - todo.Keys, m - (todo - {id}).Keys;
    var net := env.network(todo[id].addr.service.ip);
    assert done' == done[id := todo[id]];
    assert done' - {id} == done - {id};
    CountsDelta(env, done, done', {}, {}, id, net, |NewIds(done, {})|, |TriedIds(done)|, local);
    NetsInsert(env, done, id, todo[id]);
  }

  lemma NetsInsert(env: Env, m: InfoMap, id: int, info: Info)
    requires id !in m
    ensures NetsOf(env, m[id := info]) == NetsOf(env, m) + {env.network(info.addr.service.ip)}
  {
    var m' := m[id := info];
    forall net | net in NetsOf(env, m) ensures net in NetsOf(env, m') {
      var x :| x in m && env.network(m[x].addr.service.ip) == net;
      assert x in m' && env.network(m'[x].addr.service.ip) == net;
    }
    assert id in m' && env.network(m'[id].addr.service.ip) in NetsOf(env, m');
    forall net | net in NetsOf(env, m') ensures net in NetsOf(env, m) + {env.network(info.addr.service.ip)} {
      var x :| x in m' && env.network(m'[x].addr.service.ip) == net;
      if x != id {
        assert x in m && env.network(m[x].addr.service.ip) == net;
      }
    }
  }

  // What an error code of the first pass says about an entry.
  ghost predicate EntryFault(err: int, info: Info, id: int, a: map<Service, int>, v: seq<int>) {
    || (err == -1 && info.fInTried && info.lastSuccess == 0)
    || (err == -2 && info.fInTried && info.nRefCount != 0)
    || (err == -3 && !info.fInTried && !(0 <= info.nRefCount <= 8))
    || (err == -4 && !info.fInTried && info.nRefCount == 0)
    || (err == -5 && !(info.addr.service in a && a[info.addr.service] == id))
    || (err == -14 && !(0 <= info.nRandomPos < |v| && v[info.nRandomPos] == id))
    || (err == -6 && info.lastTry < 0)
    || (err == -8 && info.lastSuccess < 0)
  }

  method ScanEntries(env: Env, m: InfoMap, a: map<Service, int>, v: seq<int>)
    returns (err: int, setTried: set<int>, mapNew: map<int, int>, local: NetCounts)
    ensures err == 0 <==> EntriesConsistent(m, a, v)
    ensures err == 0 ==> Collected(env, m, setTried, mapNew, local)
    ensures err != 0 ==> exists id :: id in m && EntryFault(err, m[id], id, a, v)
  {
    hide Collected;
    setTried, mapNew, local := {}, map[], map[];
    var todo := m;
    CollectNone(env, m);
    while todo != map[]
      invariant Remaining(m, todo)
      invariant Collected(env, m - todo.Keys, setTried, mapNew, local)
      invariant forall id :: id in m && id !in todo ==> EntryConsistent(m[id], id, a, v)
      decreases todo.Keys
    {
      SomeKey(todo);
      var id :| id in todo;
      var info := todo[id];
      assert id in m && m[id] == info;
      var net := env.network(info.addr.service.ip);
      CollectOne(env, m, todo, id, setTried, mapNew, local);
      if info.fInTried {
        if info.lastSuccess == 0 {
          return -1, setTried, mapNew, local;
        }
        if info.nRefCount != 0 {
          return -2, setTried, mapNew, local;
        }
        setTried := setTried + {id};
        local := Bump(local, net, 0, 1);
      } else {
        if info.nRefCount < 0 || info.nRefCount > NEW_BUCKETS_PER_ADDRESS {
          return -3, setTried, mapNew, local;
        }
        if info.nRefCount == 0 {
          return -4, setTried, mapNew, local;
        }
        mapNew := mapNew[id := info.nRefCount];
        local := Bump(local, net, 1, 0);
      }
      if info.addr.service !in a || IdOf(a, info.addr.service) != id {
        return -5, setTried, mapNew, local;
      }
      if info.nRandomPos < 0 || info.nRandomPos >= |v| || RandomAt(v, info.nRandomPos) != id {
        return -14, setTried, mapNew, local;
      }
      if info.lastTry < 0 {
        return -6, setTried, mapNew, local;
      }
      if info.lastSuccess < 0 {
        return -8, setTried, mapNew, local;
      }
      todo := todo - {id};
    }
    assert m - todo.Keys == m;
    err := 0;
  }

  lemma CollectNone(env: Env, m: InfoMap)
    ensures Collected(env, m - m.Keys, {}, map[], map[])
  {
    assert m - m.Keys == map[];
    forall net
      ensures CountOf(map[], net) == (|NewIdsOf(env, map[], {}, net)|, |TriedIdsOf(env, map[], net)|)
    {
      assert NewIdsOf(env, map[], {}, net) == {};
      assert TriedIdsOf(env, map[], net) == {};
    }
  }

  // ---- second pass: the tried table ----

  predicate Before(s: Slot, n: int, i: int) {
    s.0 < n || (s.0 == n && s.1 < i)
  }

  // Slots scanned so far are right; tried entries not met yet are still in setTried.
  ghost predicate TriedScan(env: Env, m: InfoMap, t: Table, n: int, i: int, setTried: set<int>) {
    && (forall s :: s in t && Before(s, n, i) ==>
        IdAt(t, s) in m && m[IdAt(t, s)].fInTried && s == env.TriedSlot(m[IdAt(t, s)].addr.service))
    && (forall id :: id in setTried <==>
          && id in m && m[id].fInTried
          && var s := env.TriedSlot(m[id].addr.service); !(s in t && IdAt(t, s) == id && Before(s, n, i)))
  }

  // What an error code of the second pass says about a slot: it holds no tried entry or one that is
  // also elsewhere, or it is not in the bucket or at the position of its entry.
  ghost predicate TriedFault(err: int, env: Env, m: InfoMap, t: Table, slot: Slot)
    requires slot in t
  {
    var id := IdAt(t, slot);
    || (err == -11 && (!(id in m && m[id].fInTried) || exists s :: s in t && s != slot && IdAt(t, s) == id))
    || (err == -17 && id in m && env.TriedBucket(m[id].addr.service) != slot.0)
    || (err == -18 && id in m && env.Position(false, slot.0, m[id].addr.service) != slot.1)
  }

  // A tried entry is not in its slot.
  ghost predicate NotFiled(env: Env, service: Service, t: Table, id: int) {
    var slot := env.TriedSlot(service);
    slot !in t || IdAt(t, slot) != id
  }

  method ScanTried(env: Env, m: InfoMap, t: Table, setTried0: set<int>) returns (err: int, setTried: set<int>)
    requires InRange(t, TRIED_BUCKET_COUNT)
    requires forall id :: id in setTried0 <==> id in m && m[id].fInTried
    ensures (err == 0 && setTried == {}) <==> TriedTable(env, m, t)
    ensures err != 0 ==> !TriedTable(env, m, t) && exists slot :: slot in t && TriedFault(err, env, m, t, slot)
    ensures err == 0 && setTried != {} ==>
              exists id :: id in m && m[id].fInTried && NotFiled(env, m[id].addr.service, t, id)
  {
    hide TriedScan, TriedTable, NotFiled;
    setTried := setTried0;
    TriedScanStart(env, m, t, setTried);
    for n := 0 to TRIED_BUCKET_COUNT
      invariant TriedScan(env, m, t, n, 0, setTried)
    {
      for i := 0 to BUCKET_SIZE
        invariant TriedScan(env, m, t, n, i, setTried)
      {
        TriedScanNext(env, m, t, n, i, setTried);
        if (n, i) in t {
          var id := IdAt(t, (n, i));
          if id !in setTried {
            MetBefore(env, m, t, n, i, setTried);
            return -11, setTried;
          }
          if id !in m || env.TriedBucket(m[id].addr.service) != n {
            return -17, setTried;
          }
          if env.Position(false, n, m[id].addr.service) != i {
            return -18, setTried;
          }
          setTried := setTried - {id};
        }
      }
      TriedScanRow(env, m, t, n, setTried);
    }
    err := 0;
    TriedScanEnd(env, m, t, setTried);
  }

  lemma TriedScanStart(env: Env, m: InfoMap, t: Table, setTried: set<int>)
    requires InRange(t, TRIED_BUCKET_COUNT) && forall id :: id in setTried <==> id in m && m[id].fInTried
    ensures TriedScan(env, m, t, 0, 0, setTried)
  {}

  // A slot that is empty, or holds an entry not met yet that belongs there, and one that does not.
  lemma TriedScanNext(env: Env, m: InfoMap, t: Table, n: int, i: int, setTried: set<int>)
    requires TriedScan(env, m, t, n, i, setTried)
    ensures (n, i) !in t ==> TriedScan(env, m, t, n, i + 1, setTried)
    ensures (n, i) in t && IdAt(t, (n, i)) in setTried ==>
              var id := IdAt(t, (n, i));
              && id in m
              && if (n, i) == env.TriedSlot(m[id].addr.service)
                 then TriedScan(env, m, t, n, i + 1, setTried - {id})
                 else !TriedTable(env, m, t)
  {
    forall s | s in t && Before(s, n, i + 1) ensures s == (n, i) || Before(s, n, i) {
      assert s == (s.0, s.1);
    }
  }

  lemma TriedScanRow(env: Env, m: InfoMap, t: Table, n: int, setTried: set<int>)
    requires InRange(t, TRIED_BUCKET_COUNT) && TriedScan(env, m, t, n, BUCKET_SIZE, setTried)
    ensures TriedScan(env, m, t, n + 1, 0, setTried)
  {
    assert forall s :: s in t ==> (Before(s, n + 1, 0) <==> Before(s, n, BUCKET_SIZE));
  }

  lemma TriedScanEnd(env: Env, m: InfoMap, t: Table, setTried: set<int>)
    requires InRange(t, TRIED_BUCKET_COUNT) && TriedScan(env, m, t, TRIED_BUCKET_COUNT, 0, setTried)
    ensures setTried == {} <==> TriedTable(env, m, t)
    ensures setTried != {} ==> exists id :: id in m && m[id].fInTried && NotFiled(env, m[id].addr.service, t, id)
  {
    assert forall s :: s in t ==> Before(s, TRIED_BUCKET_COUNT, 0);
    if setTried != {} {
      SomeElement(setTried);
      var id :| id in setTried;
      assert NotFiled(env, m[id].addr.service, t, id);
    }
  }

  lemma MetBefore(env: Env, m: InfoMap, t: Table, n: int, i: int, setTried: set<int>)
    requires TriedScan(env, m, t, n, i, setTried) && (n, i) in t && IdAt(t, (n, i)) !in setTried
    ensures TriedFault(-11, env, m, t, (n, i)) && !TriedTable(env, m, t)
  {
    var id := IdAt(t, (n, i));
    if id in m && m[id].fInTried {
      var s := env.TriedSlot(m[id].addr.service);
      assert s in t && IdAt(t, s) == id && Before(s, n, i);
      assert s != (n, i);
    }
  }

  lemma SomeKey<T>(m: map<int, T>)
    requires m != map[]
    ensures exists x :: x in m
  {
    var e: map<int, T> := map[];
    assert (forall x :: x in m <==> x in e) ==> m == e;
  }

  // ---- third pass: the new table ----

  ghost function Visited(t: Table, n: int, i: int): Table {
    map s | s in t && Before(s, n, i) :: t[s]
  }

  // Slots scanned so far are right; mapNew holds the references not met yet.
  ghost predicate NewScan(env: Env, m: InfoMap, t: Table, n: int, i: int, mapNew: map<int, int>) {
    && (forall s :: s in t && Before(s, n, i) ==> var id := IdAt(t, s);
          id in m && !m[id].fInTried && s.1 == env.Position(true, s.0, m[id].addr.service))
    && (forall id :: id in m && !m[id].fInTried ==> |SlotsOf(Visited(t, n, i), id)| <= m[id].nRefCount)
    && (forall id :: id in mapNew <==> id in m && !m[id].fInTried && |SlotsOf(Visited(t, n, i), id)| < m[id].nRefCount)
    && (forall id :: id in mapNew ==> mapNew[id] == m[id].nRefCount - |SlotsOf(Visited(t, n, i), id)|)
  }

  lemma NewScanStart(env: Env, m: InfoMap, t: Table, mapNew: map<int, int>)
    requires InRange(t, NEW_BUCKET_COUNT)
    requires forall id :: id in m && !m[id].fInTried ==> m[id].nRefCount >= 1
    requires forall id :: id in mapNew <==> id in m && !m[id].fInTried
    requires forall id :: id in mapNew ==> mapNew[id] == m[id].nRefCount
    ensures NewScan(env, m, t, 0, 0, mapNew)
  {
    assert Visited(t, 0, 0) == map[];
    forall id ensures SlotsOf(map[], id) == {} {}
  }

  // An empty slot adds nothing.
  lemma NewScanSkip(env: Env, m: InfoMap, t: Table, n: int, i: int, mapNew: map<int, int>)
    requires NewScan(env, m, t, n, i, mapNew) && (n, i) !in t
    ensures NewScan(env, m, t, n, i + 1, mapNew)
  {
    assert forall s :: s in t && Before(s, n, i + 1) ==> Before(s, n, i) by {
      forall s | s in t && Before(s, n, i + 1) ensures Before(s, n, i) {
        assert s == (s.0, s.1);
      }
    }
    assert Visited(t, n, i + 1) == Visited(t, n, i);
  }

  lemma NewScanRow(env: Env, m: InfoMap, t: Table, n: int, mapNew: map<int, int>)
    requires InRange(t, NEW_BUCKET_COUNT) && NewScan(env, m, t, n, BUCKET_SIZE, mapNew)
    ensures NewScan(env, m, t, n + 1, 0, mapNew)
  {
    assert forall s :: s in t ==> (Before(s, n + 1, 0) <==> Before(s, n, BUCKET_SIZE));
    assert Visited(t, n + 1, 0) == Visited(t, n, BUCKET_SIZE);
  }

  lemma VisitSlot(t: Table, n: int, i: int)
    requires (n, i) in t
    ensures (n, i) !in Visited(t, n, i)
    ensures Visited(t, n, i + 1) == Visited(t, n, i)[(n, i) := t[(n, i)]]
    ensures forall id :: |SlotsOf(Visited(t, n, i + 1), id)| ==
              |SlotsOf(Visited(t, n, i), id)| + (if t[(n, i)] == id then 1 else 0)
  {
    forall s | s in t && Before(s, n, i + 1) ensures s == (n, i) || Before(s, n, i) {
      assert s == (s.0, s.1);
    }
    assert Visited(t, n, i + 1) == Visited(t, n, i)[(n, i) := t[(n, i)]];
    SlotsAdd(Visited(t, n, i), (n, i), t[(n, i)]);
  }

  // A reference met: one less to come.
  lemma NewScanMeet(env: Env, m: InfoMap, t: Table, n: int, i: int, mapNew: map<int, int>)
    requires NewScan(env, m, t, n, i, mapNew) && (n, i) in t
    requires IdAt(t, (n, i)) in mapNew && i == env.Position(true, n, m[IdAt(t, (n, i))].addr.service)
    ensures var id := IdAt(t, (n, i)); var left := mapNew[id] - 1;
            NewScan(env, m, t, n, i + 1, if left == 0 then mapNew - {id} else mapNew[id := left])
  {
    VisitSlot(t, n, i);
    forall s | s in t && Before(s, n, i + 1) ensures s == (n, i) || Before(s, n, i) {
      assert s == (s.0, s.1);
    }
  }

  // What an error code of the third pass says about a slot: it holds no new entry or one with more
  // slots than references, or it is not at the position of its entry.
  ghost predicate NewFault(err: int, env: Env, m: InfoMap, t: Table, slot: Slot)
    requires slot in t
  {
    var id := IdAt(t, slot);
    || (err == -12 && !(id in m && !m[id].fInTried && |SlotsOf(t, id)| <= m[id].nRefCount))
    || (err == -19 && id in m && env.Position(true, slot.0, m[id].addr.service) != slot.1)
  }

  // A slot whose id has no reference left to come means the table is wrong.
  lemma NewScanOverrun(env: Env, m: InfoMap, t: Table, n: int, i: int, mapNew: map<int, int>)
    requires NewScan(env, m, t, n, i, mapNew) && (n, i) in t && IdAt(t, (n, i)) !in mapNew
    requires forall id :: id in m && m[id].fInTried ==> m[id].nRefCount == 0
    ensures !NewTable(env, m, t) && NewFault(-12, env, m, t, (n, i))
  {
    var id := IdAt(t, (n, i));
    VisitSlot(t, n, i);
    assert SlotsOf(Visited(t, n, i + 1), id) <= SlotsOf(t, id);
    SubsetSize(SlotsOf(Visited(t, n, i + 1), id), SlotsOf(t, id));
  }

  lemma NewScanEnd(env: Env, m: InfoMap, t: Table, mapNew: map<int, int>)
    requires InRange(t, NEW_BUCKET_COUNT) && NewScan(env, m, t, NEW_BUCKET_COUNT, 0, mapNew)
    requires forall id :: id in m && m[id].fInTried ==> m[id].nRefCount == 0
    ensures mapNew == map[] <==> NewTable(env, m, t)
    ensures mapNew != map[] ==> exists id :: id in m && !m[id].fInTried && |SlotsOf(t, id)| < m[id].nRefCount
  {
    assert Visited(t, NEW_BUCKET_COUNT, 0) == t;
    forall id | id in m && m[id].fInTried ensures |SlotsOf(t, id)| == 0 {
      forall s | s in t ensures IdAt(t, s) != id {
        assert Before(s, NEW_BUCKET_COUNT, 0);
      }
      assert SlotsOf(t, id) == {};
    }
    if mapNew != map[] {
      SomeKey(mapNew);
      var id :| id in mapNew;
    }
  }

  lemma NewKnown(env: Env, m: InfoMap, t: Table, n: int, i: int, mapNew: map<int, int>, id: int)
    requires NewScan(env, m, t, n, i, mapNew) && id in mapNew
    ensures id in m
  {}

  method ScanNew(env: Env, m: InfoMap, t: Table, mapNew0: map<int, int>) returns (err: int, mapNew: map<int, int>)
    requires InRange(t, NEW_BUCKET_COUNT)
    requires forall id :: id in m && !m[id].fInTried ==> m[id].nRefCount >= 1
    requires forall id :: id in m && m[id].fInTried ==> m[id].nRefCount == 0
    requires forall id :: id in mapNew0 <==> id in m && !m[id].fInTried
    requires forall id :: id in mapNew0 ==> mapNew0[id] == m[id].nRefCount
    ensures (err == 0 && mapNew == map[]) <==> NewTable(env, m, t)
    ensures err != 0 ==> !NewTable(env, m, t) && exists slot :: slot in t && NewFault(err, env, m, t, slot)
    ensures err == 0 && mapNew != map[] ==>
              exists id :: id in m && !m[id].fInTried && |SlotsOf(t, id)| < m[id].nRefCount
  {
    hide NewScan;
    mapNew := mapNew0;
    NewScanStart(env, m, t, mapNew);
    for n := 0 to NEW_BUCKET_COUNT
      invariant NewScan(env, m, t, n, 0, mapNew)
    {
      for i := 0 to BUCKET_SIZE
        invariant NewScan(env, m, t, n, i, mapNew)
      {
        if (n, i) in t {
          var id := IdAt(t, (n, i));
          if id !in mapNew {
            NewScanOverrun(env, m, t, n, i, mapNew);
            return -12, mapNew;
          }
          NewKnown(env, m, t, n, i, mapNew, id);
          if id !in m || env.Position(true, n, m[id].addr.service) != i {
            return -19, mapNew;
          }
          NewScanMeet(env, m, t, n, i, mapNew);
          var left := mapNew[id] - 1;
          mapNew := if left == 0 then mapNew - {id} else mapNew[id := left];
        } else {
          NewScanSkip(env, m, t, n, i, mapNew);
        }
      }
      NewScanRow(env, m, t, n, mapNew);
    }
    NewScanEnd(env, m, t, mapNew);
    err := 0;
  }

  // ---- the whole check ----

  // What an error code of the last pass says: fewer networks on record than in use, or a wrong count.
  ghost predicate NetsFault(err: int, env: Env, m: InfoMap, counts: NetCounts) {
    || (err == -20 && |counts| < |NetsOf(env, m)|)
    || (err == -21 && exists net :: net in counts &&
                        counts[net] != (|NewIdsOf(env, m, {}, net)|, |TriedIdsOf(env, m, net)|))
  }

  // Every error code names something that is wrong.
  ghost predicate Fault(err: int, env: Env, m: InfoMap, a: map<Service, int>, v: seq<int>, tNew: Table, tTried: Table,
                        nNew: int, nTried: int, counts: NetCounts)
  {
    || (err == -7 && |v| != nNew + nTried)
    || (exists id :: id in m && EntryFault(err, m[id], id, a, v))
    || (err == -9 && nTried != |TriedIds(m)|)
    || (err == -10 && nNew != |NewIds(m, {})|)
    || (exists slot :: slot in tTried && TriedFault(err, env, m, tTried, slot))
    || (exists slot :: slot in tNew && NewFault(err, env, m, tNew, slot))
    || (err == -13 && exists id :: id in m && m[id].fInTried && NotFiled(env, m[id].addr.service, tTried, id))
    || (err == -15 && exists id :: id in m && !m[id].fInTried && |SlotsOf(tNew, id)| < m[id].nRefCount)
    || (err == -16 && env.keyIsNull)
    || NetsFault(err, env, m, counts)
  }

  method ScanNets(env: Env, m: InfoMap, local: NetCounts, counts: NetCounts) returns (err: int)
    requires local.Keys == NetsOf(env, m) && NetCountsOk(env, m, {}, local)
    ensures err == 0 <==> NetsConsistent(env, m, counts)
    ensures err != 0 ==> NetsFault(err, env, m, counts)
  {
    if |counts| < |local| {
      return -20;
    }
    var todo := counts.Keys;
    while todo != {}
      invariant todo <= counts.Keys
      invariant forall net :: net in counts && net !in todo ==>
                  counts[net] == (|NewIdsOf(env, m, {}, net)|, |TriedIdsOf(env, m, net)|)
    {
      var net :| net in todo;
      if CountOf(local, net) != counts[net] {
        return -21;
      }
      todo := todo - {net};
    }
    err := 0;
  }

  // Returns 0 exactly for consistent states.
  method CheckAddrman(env: Env, m: InfoMap, a: map<Service, int>, v: seq<int>, tNew: Table, tTried: Table,
                      nNew: int, nTried: int, counts: NetCounts) returns (err: int)
    requires InRange(tNew, NEW_BUCKET_COUNT) && InRange(tTried, TRIED_BUCKET_COUNT)
    ensures err == 0 <==> Consistent(env, m, a, v, tNew, tTried, nNew, nTried, counts)
    ensures err != 0 ==> Fault(err, env, m, a, v, tNew, tTried, nNew, nTried, counts)
  {
    hide TriedTable, NewTable, NetsConsistent, EntryFault, TriedFault, NewFault, NetsFault, NotFiled;
    if |v| != nTried + nNew {
      return -7;
    }
    var setTried, mapNew, local;
    err, setTried, mapNew, local := ScanEntries(env, m, a, v);
    if err != 0 {
      return;
    }
    CollectedSizes(env, m, setTried, mapNew, local);
    if |setTried| != nTried {
      return -9;
    }
    if |mapNew| != nNew {
      return -10;
    }
    EntriesRefs(m, a, v);
    var errTried, restTried := ScanTried(env, m, tTried, setTried);
    if errTried != 0 {
      return errTried;
    }
    var errNew, restNew := ScanNew(env, m, tNew, mapNew);
    if errNew != 0 {
      return errNew;
    }
    if |restTried| != 0 {
      return -13;
    }
    if |restNew| != 0 {
      return -15;
    }
    if env.keyIsNull {
      return -16;
    }
    err := ScanNets(env, m, local, counts);
  }

  lemma EntriesRefs(m: InfoMap, a: map<Service, int>, v: seq<int>)
    requires EntriesConsistent(m, a, v)
    ensures forall id :: id in m && !m[id].fInTried ==> m[id].nRefCount >= 1
    ensures forall id :: id in m && m[id].fInTried ==> m[id].nRefCount == 0
  {
    assert forall id :: id in m ==> EntryConsistent(m[id], id, a, v);
  }

  lemma CollectedSizes(env: Env, m: InfoMap, setTried: set<int>, mapNew: map<int, int>, local: NetCounts)
    requires Collected(env, m, setTried, mapNew, local)
    ensures |setTried| == |TriedIds(m)| && |mapNew| == |NewIds(m, {})|
    ensures local.Keys == NetsOf(env, m)
  {
    assert forall id :: id in setTried <==> id in TriedIds(m);
    assert setTried == TriedIds(m);
    assert forall id :: id in mapNew.Keys <==> id in NewIds(m, {});
    assert mapNew.Keys == NewIds(m, {});
  }

  // ---- agreeing indexes are consistent ----

  lemma {:induction false} RandomLength(m: InfoMap, v: seq<int>)
    requires RandomIndex(m, v)
    ensures |v| == |m|
    decreases |v|
  {
    if |v| == 0 {
      var e: InfoMap := map[];
      assert forall id :: id in m <==> id in e;
      assert m == e;
    } else {
      var id := RandomAt(v, |v| - 1);
      var v' := v[..|v| - 1];
      assert forall i :: 0 <= i < |v'| ==> RandomAt(v', i) == RandomAt(v, i);
      RandomLength(m - {id}, v');
      assert (m - {id}).Keys == m.Keys - {id};
    }
  }

  lemma NewPlusTried(m: InfoMap)
    ensures |NewIds(m, {})| + |TriedIds(m)| == |m|
  {
    assert forall id :: id in m.Keys <==> id in NewIds(m, {}) + TriedIds(m);
    assert m.Keys == NewIds(m, {}) + TriedIds(m);
    assert NewIds(m, {}) !! TriedIds(m);
  }

  lemma NetsCounted(env: Env, m: InfoMap, counts: NetCounts)
    requires NetCountsOk(env, m, {}, counts)
    ensures NetsConsistent(env, m, counts)
  {
    forall net | net in NetsOf(env, m) ensures net in counts.Keys {
      var id :| id in m && env.network(m[id].addr.service.ip) == net;
      assert id in NewIdsOf(env, m, {}, net) || id in TriedIdsOf(env, m, net);
      assert CountOf(counts, net) == (|NewIdsOf(env, m, {}, net)|, |TriedIdsOf(env, m, net)|);
    }
    SubsetSize(NetsOf(env, m), counts.Keys);
    assert forall net :: net in counts ==> CountOf(counts, net) == counts[net];
  }

  lemma AgreeingIsConsistent(env: Env, m: InfoMap, a: map<Service, int>, v: seq<int>, tNew: Table, tTried: Table,
                             nIdCount: int, nNew: int, nTried: int, counts: NetCounts)
    requires AddrIndex(m, a) && RandomIndex(m, v) && NewTable(env, m, tNew) && TriedTable(env, m, tTried)
    requires Fields(env, m, nIdCount, {}) && Counts(env, m, {}, nNew, nTried, counts) && !env.keyIsNull
    ensures InRange(tNew, NEW_BUCKET_COUNT) && InRange(tTried, TRIED_BUCKET_COUNT)
    ensures Consistent(env, m, a, v, tNew, tTried, nNew, nTried, counts)
  {
    RandomLength(m, v);
    NewPlusTried(m);
    NetsCounted(env, m, counts);
    forall id | id in m ensures EntryConsistent(m[id], id, a, v) {}
  }
}
