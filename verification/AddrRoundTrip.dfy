/** Saving a consistent address manager and loading the result gives the same
    tables, up to renaming of ids. */
module AddrRoundTrip {
  import opened Basics
  import opened AddrTables
  import opened AddrDisk
  import AddrCheck
  import AddrMan

  // A sequence that names every element of a set once.
  ghost predicate Lists(l: seq<int>, s: set<int>) {
    && (forall i :: 0 <= i < |l| ==> RandomAt(l, i) in s)
    && (forall i, j :: 0 <= i < j < |l| ==> RandomAt(l, i) != RandomAt(l, j))
    && (forall x :: x in s ==> x in l)
  }

  // idx inverts a list of ids.
  ghost predicate Inverts(idx: map<int, int>, l: seq<int>) {
    forall i :: 0 <= i < |l| ==> RandomAt(l, i) in idx && idx[RandomAt(l, i)] == i
  }

  // Indexes of the occupants of the first k positions of a bucket, in order.
  function BucketList(t: Table, b: int, k: nat, idx: map<int, int>): seq<int> {
    if k == 0 then [] else
      BucketList(t, b, k - 1, idx)
      + (if (b, k - 1) in t && IdAt(t, (b, k - 1)) in idx then [idx[IdAt(t, (b, k - 1))]] else [])
  }

  ghost predicate Encodes(env: Env, x: State, s: Stream, newIds: seq<int>, triedIds: seq<int>, idx: map<int, int>) {
    && Lists(newIds, NewIds(x.m, {}))
    && Lists(triedIds, TriedIds(x.m))
    && Inverts(idx, newIds)
    && |s.newEntries| == |newIds|
    && (forall i :: 0 <= i < |newIds| ==>
        RandomAt(newIds, i) in x.m && s.newEntries[i] == ToDisk(x.m[RandomAt(newIds, i)]))
    && |s.triedEntries| == |triedIds|
    && (forall i :: 0 <= i < |triedIds| ==>
        RandomAt(triedIds, i) in x.m && s.triedEntries[i] == ToDisk(x.m[RandomAt(triedIds, i)]))
    && |s.buckets| == NEW_BUCKET_COUNT
    && (forall b :: 0 <= b < |s.buckets| ==> s.buckets[b] == BucketList(x.tNew, b, BUCKET_SIZE, idx))
    && s.asmapChecksum == env.asmapChecksum
  }

  // ---- saving ----

  // A hash map is traversed in some order, the same one as long as it is not changed.
  method IterationOrder(m: InfoMap) returns (order: seq<int>)
    ensures Lists(order, m.Keys)
  {
    order := [];
    var todo := m.Keys;
    while todo != {}
      invariant todo <= m.Keys
      invariant Lists(order, m.Keys - todo)
    {
      SomeElement(todo);
      var id :| id in todo;
      ListsAdd(order, m.Keys - todo, id);
      assert m.Keys - (todo - {id}) == (m.Keys - todo) + {id};
      order := order + [id];
      todo := todo - {id};
    }
    assert m.Keys - todo == m.Keys;
  }

  lemma ListsAdd(l: seq<int>, s: set<int>, x: int)
    requires Lists(l, s) && x !in s
    ensures Lists(l + [x], s + {x})
  {
    var l' := l + [x];
    assert forall i :: 0 <= i < |l| ==> RandomAt(l', i) == RandomAt(l, i);
    forall y | y in s + {x} ensures y in l' {
      if y == x {
        assert l'[|l|] == x;
      } else {
        assert y in l;
        var i :| 0 <= i < |l| && l[i] == y;
        assert l'[i] == y;
      }
    }
  }

  lemma {:induction false} ListsSize(l: seq<int>, s: set<int>)
    requires Lists(l, s)
    ensures |l| == |s|
    decreases |l|
  {
    if |l| == 0 {
      var e: set<int> := {};
      assert forall x :: x in s <==> x in e;
      assert s == e;
    } else {
      var x := RandomAt(l, |l| - 1);
      var l' := l[..|l| - 1];
      assert forall i :: 0 <= i < |l'| ==> RandomAt(l', i) == RandomAt(l, i);
      forall y | y in s - {x} ensures y in l' {
        var i :| 0 <= i < |l| && l[i] == y;
        assert l'[i] == y;
      }
      ListsSize(l', s - {x});
    }
  }

  // The entries of one table met so far, in traversal order.
  ghost function Met(m: InfoMap, order: seq<int>, n: nat, tried: bool): set<int>
    requires n <= |order|
  {
    set id | id in order[..n] && id in m && m[id].fInTried == tried
  }

  lemma MetNext(m: InfoMap, order: seq<int>, n: nat, tried: bool)
    requires n < |order| && Lists(order, m.Keys)
    ensures RandomAt(order, n) in m && RandomAt(order, n) !in Met(m, order, n, tried)
    ensures Met(m, order, n + 1, tried) ==
            if m[RandomAt(order, n)].fInTried == tried then Met(m, order, n, tried) + {RandomAt(order, n)}
              else Met(m, order, n, tried)
  {
    var id := RandomAt(order, n);
    assert order[..n + 1] == order[..n] + [id];
    forall i | 0 <= i < n ensures order[..n][i] != id {
      assert RandomAt(order, i) != RandomAt(order, n);
    }
  }

  lemma MetAll(m: InfoMap, order: seq<int>, tried: bool)
    requires Lists(order, m.Keys)
    ensures Met(m, order, |order|, tried) == if tried then TriedIds(m) else NewIds(m, {})
  {
    assert order[..|order|] == order;
    assert forall id :: id in m ==> id in order;
    var all := if tried then TriedIds(m) else NewIds(m, {});
    assert forall id :: id in Met(m, order, |order|, tried) <==> id in all;
  }

  // The entries met so far are at most all of them: the source's counters cannot run over.
  lemma MetRoom(m: InfoMap, order: seq<int>, n: nat, tried: bool, l: seq<int>)
    requires n < |order| && Lists(order, m.Keys) && Lists(l, Met(m, order, n, tried))
    requires RandomAt(order, n) in m && m[RandomAt(order, n)].fInTried == tried
    ensures |l| < if tried then |TriedIds(m)| else |NewIds(m, {})|
  {
    MetNext(m, order, n, tried);
    ListsSize(l, Met(m, order, n, tried));
    var all := if tried then TriedIds(m) else NewIds(m, {});
    forall id | id in Met(m, order, n + 1, tried) ensures id in all {}
    SubsetSize(Met(m, order, n + 1, tried), all);
  }

  ghost predicate EntriesOf(m: InfoMap, entries: seq<Disk>, ids: seq<int>) {
    && |entries| == |ids|
    && forall i :: 0 <= i < |ids| ==> RandomAt(ids, i) in m && entries[i] == ToDisk(m[RandomAt(ids, i)])
  }

  lemma EntriesAdd(m: InfoMap, entries: seq<Disk>, ids: seq<int>, id: int)
    requires EntriesOf(m, entries, ids) && id in m
    ensures EntriesOf(m, entries + [ToDisk(m[id])], ids + [id])
  {
    assert forall i :: 0 <= i < |ids| ==> RandomAt(ids + [id], i) == RandomAt(ids, i);
  }

  lemma InvertsAdd(idx: map<int, int>, ids: seq<int>, id: int)
    requires Inverts(idx, ids) && id !in ids
    ensures Inverts(idx[id := |ids|], ids + [id]) && Inverts(idx[id := |ids|], ids)
  {
    assert forall i :: 0 <= i < |ids| ==> RandomAt(ids + [id], i) == RandomAt(ids, i);
    assert forall i :: 0 <= i < |ids| ==> RandomAt(ids, i) in ids;
  }

  method SaveNew(m: InfoMap, order: seq<int>, nNew: int)
    returns (entries: seq<Disk>, ghost ids: seq<int>, mapUnkIds: map<int, int>)
    requires Lists(order, m.Keys) && nNew == |NewIds(m, {})|
    requires forall id :: id in m ==> (m[id].nRefCount != 0 <==> !m[id].fInTried)
    ensures Lists(ids, NewIds(m, {})) && EntriesOf(m, entries, ids) && Inverts(mapUnkIds, ids)
  {
    hide Lists, EntriesOf, Inverts;
    entries, ids, mapUnkIds := [], [], map[];
    NothingMet(m, order, false);
    for n := 0 to |order|
      invariant Lists(ids, Met(m, order, n, false)) && EntriesOf(m, entries, ids) && Inverts(mapUnkIds, ids)
    {
      var id := RandomAt(order, n);
      MetNext(m, order, n, false);
      NotListed(ids, Met(m, order, n, false), id);
      InvertsAdd(mapUnkIds, ids, id);
      EntriesSize(m, entries, ids);
      mapUnkIds := mapUnkIds[id := |entries|];
      var info := m[id];
      if info.nRefCount != 0 {
        MetRoom(m, order, n, false, ids);
        assert |entries| != nNew;  // "this means nNew was wrong"
        ListsAdd(ids, Met(m, order, n, false), id);
        EntriesAdd(m, entries, ids, id);
        entries := entries + [ToDisk(info)];
        ids := ids + [id];
      }
    }
    MetAll(m, order, false);
  }

  method SaveTried(m: InfoMap, order: seq<int>, nTried: int) returns (entries: seq<Disk>, ghost ids: seq<int>)
    requires Lists(order, m.Keys) && nTried == |TriedIds(m)|
    ensures Lists(ids, TriedIds(m)) && EntriesOf(m, entries, ids)
  {
    hide Lists, EntriesOf;
    entries, ids := [], [];
    NothingMet(m, order, true);
    for n := 0 to |order|
      invariant Lists(ids, Met(m, order, n, true)) && EntriesOf(m, entries, ids)
    {
      var id := RandomAt(order, n);
      MetNext(m, order, n, true);
      var info := m[id];
      if info.fInTried {
        MetRoom(m, order, n, true, ids);
        EntriesSize(m, entries, ids);
        assert |entries| != nTried;  // "this means nTried was wrong"
        ListsAdd(ids, Met(m, order, n, true), id);
        EntriesAdd(m, entries, ids, id);
        entries := entries + [ToDisk(info)];
        ids := ids + [id];
      }
    }
    MetAll(m, order, true);
  }

  lemma NothingMet(m: InfoMap, order: seq<int>, tried: bool)
    ensures Lists([], Met(m, order, 0, tried)) && EntriesOf(m, [], []) && Inverts(map[], [])
  {}

  lemma EntriesSize(m: InfoMap, entries: seq<Disk>, ids: seq<int>)
    requires EntriesOf(m, entries, ids)
    ensures |entries| == |ids|
  {}

  lemma NotListed(l: seq<int>, s: set<int>, x: int)
    requires Lists(l, s) && x !in s
    ensures x !in l
  {
    forall i | 0 <= i < |l| ensures l[i] != x {
      assert RandomAt(l, i) in s;
    }
  }

  method SaveBuckets(t: Table, mapUnkIds: map<int, int>) returns (buckets: seq<seq<int>>)
    ensures |buckets| == NEW_BUCKET_COUNT
    ensures forall b :: 0 <= b < |buckets| ==> buckets[b] == BucketList(t, b, BUCKET_SIZE, mapUnkIds)
  {
    buckets := [];
    for bucket := 0 to NEW_BUCKET_COUNT
      invariant |buckets| == bucket
      invariant forall b :: 0 <= b < |buckets| ==> buckets[b] == BucketList(t, b, BUCKET_SIZE, mapUnkIds)
    {
      var list := [];
      for i := 0 to BUCKET_SIZE
        invariant list == BucketList(t, bucket, i, mapUnkIds)
      {
        if (bucket, i) in t && IdAt(t, (bucket, i)) in mapUnkIds {
          list := list + [mapUnkIds[IdAt(t, (bucket, i))]];
        }
      }
      buckets := buckets + [list];
    }
  }

  method Serialize(env: Env, x: State)
    returns (s: Stream, ghost newIds: seq<int>, ghost triedIds: seq<int>, ghost idx: map<int, int>)
    requires Agrees(env, x)
    ensures Encodes(env, x, s, newIds, triedIds, idx)
  {
    var order := IterationOrder(x.m);
    RefsAreNew(env, x.m, x.nIdCount);
    var newEntries, triedEntries, mapUnkIds;
    newEntries, newIds, mapUnkIds := SaveNew(x.m, order, x.nNew);
    triedEntries, triedIds := SaveTried(x.m, order, x.nTried);
    var buckets := SaveBuckets(x.tNew, mapUnkIds);
    idx := mapUnkIds;
    s := Stream(newEntries, triedEntries, buckets, env.asmapChecksum);
  }

  lemma RefsAreNew(env: Env, m: InfoMap, nIdCount: int)
    requires Fields(env, m, nIdCount, {})
    ensures forall id :: id in m ==> (m[id].nRefCount != 0 <==> !m[id].fInTried)
  {}

  // ---- the saved buckets restore the new table ----

  // The table with ids replaced by their indexes in the file.
  ghost function Renamed(t: Table, idx: map<int, int>): Table {
    map s | s in t && IdAt(t, s) in idx :: idx[IdAt(t, s)]
  }

  // What relates the table, the id list and the entries on disk.
  ghost predicate NewSaved(env: Env, t: Table, entries: seq<Disk>, ids: seq<int>, idx: map<int, int>) {
    && |entries| == |ids|
    && (forall s :: s in t ==>
          && IdAt(t, s) in idx
          && 0 <= idx[IdAt(t, s)] < |ids|
          && RandomAt(ids, idx[IdAt(t, s)]) == IdAt(t, s)
          && 0 <= s.0 < NEW_BUCKET_COUNT && 0 <= s.1 < BUCKET_SIZE
          && s.1 == env.Position(true, s.0, entries[idx[IdAt(t, s)]].addr.service))
  }

  // Pairs written for the slots before (n, i) go back to exactly these slots.
  ghost predicate Rebuilt(env: Env, t: Table, entries: seq<Disk>, idx: map<int, int>, pairs: seq<(int, int)>,
                          n: int, i: int) {
    && PairsOk(pairs, |entries|, NEW_BUCKET_COUNT)
    && (forall j :: 0 <= j < |pairs| ==> AddrCheck.Before(SlotOf(env, entries, pairs[j]), n, i))
    && (forall j, k :: 0 <= j < k < |pairs| ==> SlotOf(env, entries, pairs[j]) != SlotOf(env, entries, pairs[k]))
    && Restored(env, entries, pairs, |pairs|) == Renamed(AddrCheck.Visited(t, n, i), idx)
  }

  lemma {:induction false} RestoredPrefix(env: Env, entries: seq<Disk>, pairs: seq<(int, int)>,
                                          more: seq<(int, int)>, n: nat)
    requires n <= |pairs| && forall k :: 0 <= k < |pairs + more| ==> 0 <= (pairs + more)[k].1 < |entries|
    requires forall k :: 0 <= k < |pairs| ==> 0 <= pairs[k].1 < |entries|
    ensures Restored(env, entries, pairs + more, n) == Restored(env, entries, pairs, n)
  {
    if n > 0 {
      RestoredPrefix(env, entries, pairs, more, n - 1);
    }
  }

  lemma RebuiltNext(env: Env, t: Table, entries: seq<Disk>, ids: seq<int>, idx: map<int, int>,
                    pairs: seq<(int, int)>, n: int, i: int)
    requires NewSaved(env, t, entries, ids, idx) && Rebuilt(env, t, entries, idx, pairs, n, i) && (n, i) in t
    ensures Rebuilt(env, t, entries, idx, pairs + [(n, idx[IdAt(t, (n, i))])], n, i + 1)
  {
    hide Restored, Renamed;
    var p := (n, idx[IdAt(t, (n, i))]);
    var pairs' := pairs + [p];
    assert SlotOf(env, entries, p) == (n, i);
    RestoredNext(env, entries, pairs, p);
    RenamedNext(t, idx, n, i);
    assert forall j :: 0 <= j < |pairs| ==> pairs'[j] == pairs[j];
    forall j | 0 <= j < |pairs'| ensures AddrCheck.Before(SlotOf(env, entries, pairs'[j]), n, i + 1) {}
  }

  lemma RestoredNext(env: Env, entries: seq<Disk>, pairs: seq<(int, int)>, p: (int, int))
    requires PairsOk(pairs, |entries|, NEW_BUCKET_COUNT) && 0 <= p.1 < |entries| && 0 <= p.0 < NEW_BUCKET_COUNT
    ensures PairsOk(pairs + [p], |entries|, NEW_BUCKET_COUNT)
    ensures Restored(env, entries, pairs + [p], |pairs + [p]|) ==
              Restored(env, entries, pairs, |pairs|)[SlotOf(env, entries, p) := p.1]
  {
    RestoredPrefix(env, entries, pairs, [p], |pairs|);
  }

  lemma RenamedNext(t: Table, idx: map<int, int>, n: int, i: int)
    requires (n, i) in t && IdAt(t, (n, i)) in idx
    ensures Renamed(AddrCheck.Visited(t, n, i + 1), idx) ==
              Renamed(AddrCheck.Visited(t, n, i), idx)[(n, i) := idx[IdAt(t, (n, i))]]
  {
    AddrCheck.VisitSlot(t, n, i);
    var u, u' := AddrCheck.Visited(t, n, i), AddrCheck.Visited(t, n, i + 1);
    assert forall s :: s in u ==> IdAt(u', s) == IdAt(u, s);
  }

  lemma RebuiltSkip(env: Env, t: Table, entries: seq<Disk>, idx: map<int, int>, pairs: seq<(int, int)>, n: int, i: int)
    requires Rebuilt(env, t, entries, idx, pairs, n, i) && (n, i) !in t
    ensures Rebuilt(env, t, entries, idx, pairs, n, i + 1)
  {
    forall s | s in t && AddrCheck.Before(s, n, i + 1) ensures AddrCheck.Before(s, n, i) {
      assert s == (s.0, s.1);
    }
    assert AddrCheck.Visited(t, n, i + 1) == AddrCheck.Visited(t, n, i);
  }

  lemma RowAppend(b: int, list: seq<int>, x: int, nNew: int)
    requires 0 <= x < nNew
    ensures Row(b, list + [x], nNew) == Row(b, list, nNew) + [(b, x)]
  {
    assert (list + [x])[..|list|] == list;
  }

  // One bucket, position by position.
  lemma {:induction false} RebuiltBucket(env: Env, t: Table, entries: seq<Disk>, ids: seq<int>, idx: map<int, int>,
                                         pairs: seq<(int, int)>, b: nat, k: nat)
    requires NewSaved(env, t, entries, ids, idx) && Rebuilt(env, t, entries, idx, pairs, b, 0) && k <= BUCKET_SIZE
    ensures Rebuilt(env, t, entries, idx, pairs + Row(b, BucketList(t, b, k, idx), |entries|), b, k)
  {
    hide Rebuilt, NewSaved, Row, IdAt;
    if k == 0 {
      RowNone(b, |entries|);
      assert pairs + [] == pairs;
    } else {
      RebuiltBucket(env, t, entries, ids, idx, pairs, b, k - 1);
      var list := BucketList(t, b, k - 1, idx);
      var before := pairs + Row(b, list, |entries|);
      if (b, k - 1) in t {
        SavedAt(env, t, entries, ids, idx, (b, k - 1));
        var x := idx[IdAt(t, (b, k - 1))];
        RebuiltNext(env, t, entries, ids, idx, before, b, k - 1);
        RowAppend(b, list, x, |entries|);
        assert BucketList(t, b, k, idx) == list + [x];
        assert pairs + Row(b, list + [x], |entries|) == before + [(b, x)];
      } else {
        RebuiltSkip(env, t, entries, idx, before, b, k - 1);
        assert BucketList(t, b, k, idx) == list;
      }
    }
  }

  lemma RowNone(b: int, nNew: int)
    ensures Row(b, [], nNew) == []
  {}

  lemma SavedAt(env: Env, t: Table, entries: seq<Disk>, ids: seq<int>, idx: map<int, int>, slot: Slot)
    requires NewSaved(env, t, entries, ids, idx) && slot in t
    ensures IdAt(t, slot) in idx && 0 <= idx[IdAt(t, slot)] < |entries|
  {}

  lemma RebuiltRow(env: Env, t: Table, entries: seq<Disk>, ids: seq<int>, idx: map<int, int>,
                   pairs: seq<(int, int)>, n: int)
    requires NewSaved(env, t, entries, ids, idx) && Rebuilt(env, t, entries, idx, pairs, n, BUCKET_SIZE)
    ensures Rebuilt(env, t, entries, idx, pairs, n + 1, 0)
  {
    assert forall s :: s in t ==> (AddrCheck.Before(s, n + 1, 0) <==> AddrCheck.Before(s, n, BUCKET_SIZE));
    assert AddrCheck.Visited(t, n + 1, 0) == AddrCheck.Visited(t, n, BUCKET_SIZE);
  }

  lemma RebuiltNone(env: Env, t: Table, entries: seq<Disk>, ids: seq<int>, idx: map<int, int>)
    requires NewSaved(env, t, entries, ids, idx)
    ensures Rebuilt(env, t, entries, idx, [], 0, 0)
  {
    assert AddrCheck.Visited(t, 0, 0) == map[];
  }

  lemma {:induction false} RebuiltAll(env: Env, t: Table, entries: seq<Disk>, ids: seq<int>, idx: map<int, int>,
                                      buckets: seq<seq<int>>, b: nat)
    requires NewSaved(env, t, entries, ids, idx) && b <= |buckets|
    requires forall c :: 0 <= c < |buckets| ==> buckets[c] == BucketList(t, c, BUCKET_SIZE, idx)
    ensures Rebuilt(env, t, entries, idx, Flat(buckets, b, |entries|), b, 0)
  {
    hide Rebuilt;
    if b == 0 {
      RebuiltNone(env, t, entries, ids, idx);
    } else {
      RebuiltAll(env, t, entries, ids, idx, buckets, b - 1);
      RebuiltBucket(env, t, entries, ids, idx, Flat(buckets, b - 1, |entries|), b - 1, BUCKET_SIZE);
      RebuiltRow(env, t, entries, ids, idx, Flat(buckets, b, |entries|), b - 1);
    }
  }

  lemma RenamedSlots(env: Env, t: Table, entries: seq<Disk>, ids: seq<int>, idx: map<int, int>, i: int)
    requires NewSaved(env, t, entries, ids, idx) && Inverts(idx, ids) && 0 <= i < |ids|
    ensures SlotsOf(Renamed(t, idx), i) == SlotsOf(t, RandomAt(ids, i))
  {
    var r := Renamed(t, idx);
    assert forall s :: s in t <==> s in r;
    assert forall s :: s in t ==> IdAt(r, s) == idx[IdAt(t, s)];
    forall s | s in t ensures IdAt(r, s) == i <==> IdAt(t, s) == RandomAt(ids, i) {
      assert RandomAt(ids, idx[IdAt(t, s)]) == IdAt(t, s);
    }
    assert forall s :: s in SlotsOf(r, i) <==> s in SlotsOf(t, RandomAt(ids, i));
  }

  // ---- tables are large enough ----

  ghost function RowSlots(b: int, p: nat): set<Slot> {
    if p == 0 then {} else RowSlots(b, p - 1) + {(b, p - 1)}
  }

  ghost function Grid(buckets: nat): set<Slot> {
    if buckets == 0 then {} else Grid(buckets - 1) + RowSlots(buckets - 1, BUCKET_SIZE)
  }

  lemma {:induction false} RowSlotsFacts(b: int, p: nat)
    ensures |RowSlots(b, p)| == p
    ensures forall s :: s in RowSlots(b, p) <==> s.0 == b && 0 <= s.1 < p
  {
    if p > 0 {
      RowSlotsFacts(b, p - 1);
      forall s ensures s in RowSlots(b, p) <==> s.0 == b && 0 <= s.1 < p {
        assert s == (s.0, s.1);
      }
    }
  }

  lemma {:induction false} GridFacts(buckets: nat)
    ensures |Grid(buckets)| == buckets * BUCKET_SIZE
    ensures forall s :: s in Grid(buckets) <==> 0 <= s.0 < buckets && 0 <= s.1 < BUCKET_SIZE
  {
    hide RowSlots;
    if buckets > 0 {
      GridFacts(buckets - 1);
      RowSlotsFacts(buckets - 1, BUCKET_SIZE);
    }
  }

  lemma TableSize(t: Table, buckets: nat)
    requires AddrCheck.InRange(t, buckets)
    ensures |t| <= buckets * BUCKET_SIZE
  {
    GridFacts(buckets);
    assert t.Keys <= Grid(buckets);
    assert Grid(buckets) == t.Keys + (Grid(buckets) - t.Keys);
  }

  // Ids that each hold a slot are no more than the occupied slots.
  lemma {:induction false} IdsFit(t: Table, ids: set<int>)
    requires forall id :: id in ids ==> exists s :: s in t && IdAt(t, s) == id
    ensures |ids| <= |t|
    decreases |ids|
  {
    if ids != {} {
      SomeElement(ids);
      var id :| id in ids;
      var s :| s in t && IdAt(t, s) == id;
      var t' := t - {s};
      forall x | x in ids - {id} ensures exists s' :: s' in t' && IdAt(t', s') == x {
        var s' :| s' in t && IdAt(t, s') == x;
        assert s' in t' && IdAt(t', s') == x;
      }
      IdsFit(t', ids - {id});
      assert t'.Keys == t.Keys - {s};
    }
  }

  lemma NewFits(env: Env, x: State)
    requires Agrees(env, x)
    ensures |NewIds(x.m, {})| <= 65536 == NEW_BUCKET_COUNT * BUCKET_SIZE
    ensures |TriedIds(x.m)| <= 16384 == TRIED_BUCKET_COUNT * BUCKET_SIZE
  {
    hide NewTable, TriedTable, AddrIndex, RandomIndex, Fields, Counts;
    NewIdsHaveSlots(env, x.m, x.nIdCount, x.tNew);
    IdsFit(x.tNew, NewIds(x.m, {}));
    TableSize(x.tNew, NEW_BUCKET_COUNT);
    TriedIdsHaveSlots(env, x.m, x.tTried);
    IdsFit(x.tTried, TriedIds(x.m));
    TableSize(x.tTried, TRIED_BUCKET_COUNT);
  }

  lemma NewIdsHaveSlots(env: Env, m: InfoMap, nIdCount: int, t: Table)
    requires NewTable(env, m, t) && Fields(env, m, nIdCount, {})
    ensures AddrCheck.InRange(t, NEW_BUCKET_COUNT)
    ensures forall id :: id in NewIds(m, {}) ==> exists s :: s in t && IdAt(t, s) == id
  {
    forall id | id in NewIds(m, {}) ensures exists s :: s in t && IdAt(t, s) == id {
      assert id in m && |SlotsOf(t, id)| >= 1;
      HasSlot(SlotsOf(t, id));
      var s :| s in SlotsOf(t, id);
    }
  }

  lemma TriedIdsHaveSlots(env: Env, m: InfoMap, t: Table)
    requires TriedTable(env, m, t)
    ensures AddrCheck.InRange(t, TRIED_BUCKET_COUNT)
    ensures forall id :: id in TriedIds(m) ==> exists s :: s in t && IdAt(t, s) == id
  {
    forall id | id in TriedIds(m) ensures exists s :: s in t && IdAt(t, s) == id {
      assert id in m && env.TriedSlot(m[id].addr.service) in t;
    }
  }

  // ---- the round trip ----

  lemma SavedNew(env: Env, x: State, s: Stream, newIds: seq<int>, triedIds: seq<int>, idx: map<int, int>)
    requires Agrees(env, x) && Encodes(env, x, s, newIds, triedIds, idx)
    ensures NewSaved(env, x.tNew, s.newEntries, newIds, idx)
  {
    var t := x.tNew;
    forall slot | slot in t
      ensures IdAt(t, slot) in idx
      ensures 0 <= idx[IdAt(t, slot)] < |newIds|
      ensures RandomAt(newIds, idx[IdAt(t, slot)]) == IdAt(t, slot)
      ensures 0 <= slot.0 < NEW_BUCKET_COUNT && 0 <= slot.1 < BUCKET_SIZE
      ensures slot.1 == env.Position(true, slot.0, s.newEntries[idx[IdAt(t, slot)]].addr.service)
    {
      var id := IdAt(t, slot);
      assert id in x.m && slot in SlotsOf(t, id);
      assert id in NewIds(x.m, {});
      assert id in newIds;
      var i :| 0 <= i < |newIds| && newIds[i] == id;
      assert RandomAt(newIds, i) == id;
    }
  }

  lemma SavedServices(env: Env, x: State, s: Stream, newIds: seq<int>, triedIds: seq<int>, idx: map<int, int>)
    requires Agrees(env, x) && Encodes(env, x, s, newIds, triedIds, idx)
    ensures DistinctServices(s.newEntries + s.triedEntries)
  {
    hide NewTable, TriedTable, RandomIndex, Counts, Fields;
    var all, ren := s.newEntries + s.triedEntries, newIds + triedIds;
    forall k | 0 <= k < |all|
      ensures RandomAt(ren, k) in x.m && all[k] == ToDisk(x.m[RandomAt(ren, k)])
      ensures x.m[RandomAt(ren, k)].fInTried <==> k >= |newIds|
      ensures RandomAt(ren, k) == if k < |newIds| then RandomAt(newIds, k) else RandomAt(triedIds, k - |newIds|)
    {
      RenAt(x, newIds, triedIds, k);
    }
    forall j, k | 0 <= j < k < |all| ensures all[j].addr.service != all[k].addr.service {
      assert RandomAt(ren, j) != RandomAt(ren, k);
      SameServiceSameId(x.m, x.a, RandomAt(ren, j), RandomAt(ren, k));
    }
  }

  lemma SameServiceSameId(m: InfoMap, a: map<Service, int>, i: int, j: int)
    requires AddrIndex(m, a) && i in m && j in m && i != j
    ensures m[i].addr.service != m[j].addr.service
  {}

  lemma RenAt(x: State, newIds: seq<int>, triedIds: seq<int>, k: int)
    requires Lists(newIds, NewIds(x.m, {})) && Lists(triedIds, TriedIds(x.m)) && 0 <= k < |newIds + triedIds|
    ensures RandomAt(newIds + triedIds, k) == if k < |newIds| then RandomAt(newIds, k)
              else RandomAt(triedIds, k - |newIds|)
    ensures RandomAt(newIds + triedIds, k) in x.m && (x.m[RandomAt(newIds + triedIds, k)].fInTried <==> k >= |newIds|)
  {
    if k < |newIds| {
      assert RandomAt(newIds, k) in NewIds(x.m, {});
    } else {
      assert RandomAt(triedIds, k - |newIds|) in TriedIds(x.m);
    }
  }

  lemma SavedEntries(env: Env, x: State, s: Stream, newIds: seq<int>, triedIds: seq<int>, idx: map<int, int>)
    requires Agrees(env, x) && Encodes(env, x, s, newIds, triedIds, idx)
    ensures forall k :: 0 <= k < |s.newEntries| ==>
              env.valid(s.newEntries[k].addr.service.ip) && s.newEntries[k].lastSuccess >= 0
    ensures forall k :: 0 <= k < |s.triedEntries| ==>
              env.valid(s.triedEntries[k].addr.service.ip) && s.triedEntries[k].lastSuccess > 0
    ensures forall j, k :: 0 <= j < k < |s.triedEntries| ==>
              env.TriedSlot(s.triedEntries[j].addr.service) != env.TriedSlot(s.triedEntries[k].addr.service)
  {
    hide NewTable, AddrIndex, RandomIndex, Counts;
    forall k | 0 <= k < |s.newEntries|
      ensures env.valid(s.newEntries[k].addr.service.ip) && s.newEntries[k].lastSuccess >= 0
    {
      assert RandomAt(newIds, k) in x.m;
    }
    forall k | 0 <= k < |s.triedEntries|
      ensures env.valid(s.triedEntries[k].addr.service.ip) && s.triedEntries[k].lastSuccess > 0
      ensures var slot := env.TriedSlot(s.triedEntries[k].addr.service);
              slot in x.tTried && IdAt(x.tTried, slot) == RandomAt(triedIds, k)
    {
      assert RandomAt(triedIds, k) in TriedIds(x.m);
    }
  }

  lemma SavedRefs(env: Env, x: State, s: Stream, newIds: seq<int>, triedIds: seq<int>, idx: map<int, int>)
    requires Agrees(env, x) && Encodes(env, x, s, newIds, triedIds, idx)
    ensures forall k :: 0 <= k < |newIds| ==>
              && RandomAt(newIds, k) in x.m
              && |SlotsOf(Renamed(x.tNew, idx), k)| == x.m[RandomAt(newIds, k)].nRefCount
              && 1 <= |SlotsOf(Renamed(x.tNew, idx), k)| <= NEW_BUCKETS_PER_ADDRESS
  {
    SavedNew(env, x, s, newIds, triedIds, idx);
    forall k | 0 <= k < |newIds|
      ensures RandomAt(newIds, k) in x.m && |SlotsOf(Renamed(x.tNew, idx), k)| == x.m[RandomAt(newIds, k)].nRefCount
      ensures 1 <= |SlotsOf(Renamed(x.tNew, idx), k)| <= NEW_BUCKETS_PER_ADDRESS
    {
      assert RandomAt(newIds, k) in NewIds(x.m, {});
      RenamedSlots(env, x.tNew, s.newEntries, newIds, idx, k);
    }
  }

  lemma SavedTable(env: Env, x: State, s: Stream, newIds: seq<int>, triedIds: seq<int>, idx: map<int, int>)
    requires Agrees(env, x) && Encodes(env, x, s, newIds, triedIds, idx)
    ensures var pairs := Flat(s.buckets, |s.buckets|, |s.newEntries|);
            && PairsOk(pairs, |s.newEntries|, NEW_BUCKET_COUNT)
            && (forall j, k :: 0 <= j < k < |pairs| ==>
                SlotOf(env, s.newEntries, pairs[j]) != SlotOf(env, s.newEntries, pairs[k]))
            && Restored(env, s.newEntries, pairs, |pairs|) == Renamed(x.tNew, idx)
  {
    hide Agrees, Restored, Renamed, Flat;
    SavedNew(env, x, s, newIds, triedIds, idx);
    RebuiltAll(env, x.tNew, s.newEntries, newIds, idx, s.buckets, |s.buckets|);
    VisitedAll(env, x.tNew, s.newEntries, newIds, idx);
  }

  lemma VisitedAll(env: Env, t: Table, entries: seq<Disk>, ids: seq<int>, idx: map<int, int>)
    requires NewSaved(env, t, entries, ids, idx)
    ensures AddrCheck.Visited(t, NEW_BUCKET_COUNT, 0) == t
  {
    assert forall s :: s in t ==> AddrCheck.Before(s, NEW_BUCKET_COUNT, 0);
  }

  // What was saved from agreeing indexes loads without loss.
  lemma SavedIsClean(env: Env, x: State, s: Stream, newIds: seq<int>, triedIds: seq<int>, idx: map<int, int>)
    requires Agrees(env, x) && !env.keyIsNull && Encodes(env, x, s, newIds, triedIds, idx)
    ensures Clean(env, s)
  {
    SavedServices(env, x, s, newIds, triedIds, idx);
    SavedEntries(env, x, s, newIds, triedIds, idx);
    SavedRefs(env, x, s, newIds, triedIds, idx);
    SavedTable(env, x, s, newIds, triedIds, idx);
    NewFits(env, x);
    ListsSize(newIds, NewIds(x.m, {}));
    ListsSize(triedIds, TriedIds(x.m));
    hide Agrees, Lists, Renamed, Restored, Flat, DistinctServices, Inverts;
  }

  // The same entries, tables and counts, with id k of one called ren[k] in the other.
  ghost predicate SameUpToIds(env: Env, x: State, y: State, ren: seq<int>) {
    && Lists(ren, x.m.Keys)
    && (forall k :: k in y.m <==> 0 <= k < |ren|)
    && (forall k :: 0 <= k < |ren| ==> SameEntry(x.m[RandomAt(ren, k)], y.m[k]))
    && SameSlots(x.tNew, y.tNew, ren)
    && SameSlots(x.tTried, y.tTried, ren)
    && y.nNew == x.nNew && y.nTried == x.nTried
    && (forall net :: CountOf(y.counts, net) == CountOf(x.counts, net))
    && Agrees(env, y)
  }

  ghost predicate SameEntry(i: Info, i': Info) {
    ToDisk(i') == ToDisk(i) && i'.nRefCount == i.nRefCount && i'.fInTried == i.fInTried
  }

  ghost predicate SameSlots(t: Table, t': Table, ren: seq<int>) {
    && (forall s :: s in t <==> s in t')
    && (forall s :: s in t' ==> 0 <= IdAt(t', s) < |ren| && RandomAt(ren, IdAt(t', s)) == IdAt(t, s))
  }

  lemma {:induction false} Bijection(l: seq<int>, a: set<int>, b: set<int>)
    requires forall i, j :: 0 <= i < j < |l| ==> RandomAt(l, i) != RandomAt(l, j)
    requires forall k :: k in a ==> 0 <= k < |l| && RandomAt(l, k) in b
    requires forall x :: x in b ==> exists k :: k in a && 0 <= k < |l| && RandomAt(l, k) == x
    ensures |a| == |b|
    decreases |a|
  {
    if a == {} {
      var e: set<int> := {};
      assert forall x :: x in b <==> x in e;
      assert b == e;
    } else {
      SomeElement(a);
      var k :| k in a;
      var x := RandomAt(l, k);
      forall y | y in b - {x} ensures exists i :: i in a - {k} && 0 <= i < |l| && RandomAt(l, i) == y {
        var i :| i in a && 0 <= i < |l| && RandomAt(l, i) == y;
        assert i in a - {k};
      }
      Bijection(l, a - {k}, b - {x});
    }
  }

  lemma RenLists(x: State, newIds: seq<int>, triedIds: seq<int>)
    requires Lists(newIds, NewIds(x.m, {})) && Lists(triedIds, TriedIds(x.m))
    ensures Lists(newIds + triedIds, x.m.Keys)
  {
    var ren := newIds + triedIds;
    forall i | 0 <= i < |ren|
      ensures RandomAt(ren, i) == if i < |newIds| then RandomAt(newIds, i) else RandomAt(triedIds, i - |newIds|)
      ensures RandomAt(ren, i) in x.m && (x.m[RandomAt(ren, i)].fInTried <==> i >= |newIds|)
    {
      RenAt(x, newIds, triedIds, i);
    }
    forall id | id in x.m.Keys ensures id in ren {
      if x.m[id].fInTried {
        assert id in TriedIds(x.m) && id in triedIds;
      } else {
        assert id in NewIds(x.m, {}) && id in newIds;
      }
    }
  }

  // Networks keep their counts when every entry keeps its record and its table.
  lemma NetSizes(env: Env, m: InfoMap, m': InfoMap, ren: seq<int>, net: Network)
    requires Lists(ren, m.Keys) && (forall k :: k in m' <==> 0 <= k < |ren|)
    requires forall k :: 0 <= k < |ren| ==> SameEntry(m[RandomAt(ren, k)], m'[k])
    ensures |NewIdsOf(env, m', {}, net)| == |NewIdsOf(env, m, {}, net)|
    ensures |TriedIdsOf(env, m', net)| == |TriedIdsOf(env, m, net)|
  {
    forall id | id in m ensures exists k :: 0 <= k < |ren| && RandomAt(ren, k) == id {
      assert id in ren;
      var k :| 0 <= k < |ren| && ren[k] == id;
      assert RandomAt(ren, k) == id;
    }
    forall id | id in NewIdsOf(env, m, {}, net)
      ensures exists k :: k in NewIdsOf(env, m', {}, net) && 0 <= k < |ren| && RandomAt(ren, k) == id
    {
      var k :| 0 <= k < |ren| && RandomAt(ren, k) == id;
      assert SameEntry(m[RandomAt(ren, k)], m'[k]);
      assert k in NewIdsOf(env, m', {}, net);
    }
    forall id | id in TriedIdsOf(env, m, net)
      ensures exists k :: k in TriedIdsOf(env, m', net) && 0 <= k < |ren| && RandomAt(ren, k) == id
    {
      var k :| 0 <= k < |ren| && RandomAt(ren, k) == id;
      assert SameEntry(m[RandomAt(ren, k)], m'[k]);
      assert k in TriedIdsOf(env, m', net);
    }
    Bijection(ren, NewIdsOf(env, m', {}, net), NewIdsOf(env, m, {}, net));
    Bijection(ren, TriedIdsOf(env, m', net), TriedIdsOf(env, m, net));
  }

  lemma LoadedEntries(env: Env, x: State, s: Stream, newIds: seq<int>, triedIds: seq<int>, idx: map<int, int>, y: State)
    requires Agrees(env, x) && Encodes(env, x, s, newIds, triedIds, idx) && Clean(env, s) && Loaded(env, s, y)
    ensures var ren := newIds + triedIds;
            && (forall k :: k in y.m <==> 0 <= k < |ren|)
            && (forall k :: 0 <= k < |ren| ==> RandomAt(ren, k) in x.m && SameEntry(x.m[RandomAt(ren, k)], y.m[k]))
    ensures y.tNew == Renamed(x.tNew, idx)
  {
    hide NewTable, TriedTable, AddrIndex, RandomIndex, Counts, Clean, Restored, TriedRestored, Renamed, Flat;
    var ren := newIds + triedIds;
    SavedTable(env, x, s, newIds, triedIds, idx);
    SavedRefs(env, x, s, newIds, triedIds, idx);
    forall k | 0 <= k < |ren| ensures RandomAt(ren, k) in x.m && k in y.m && SameEntry(x.m[RandomAt(ren, k)], y.m[k]) {
      RenAt(x, newIds, triedIds, k);
      var m := BothInfo(s, |s.triedEntries|);
      CountedAt(m, y.tNew, k);
      if k < |newIds| {
        assert m[k] == FromDisk(s.newEntries[k]).(nRandomPos := k);
      } else {
        var d := s.triedEntries[k - |newIds|];
        assert m[k] == FromDisk(d).(nRandomPos := k, fInTried := true);
      }
    }
  }

  lemma LoadedTriedTable(env: Env, x: State, s: Stream, newIds: seq<int>, triedIds: seq<int>, idx: map<int, int>,
                         y: State)
    requires Agrees(env, x) && Encodes(env, x, s, newIds, triedIds, idx) && Loaded(env, s, y)
    ensures SameSlots(x.tTried, y.tTried, newIds + triedIds)
  {
    hide NewTable, AddrIndex, RandomIndex, Counts, Restored, TriedRestored, Flat, Fields, BucketList, TriedTable, Lists;
    SavedEntries(env, x, s, newIds, triedIds, idx);
    forall slot ensures slot in x.tTried <==> slot in y.tTried {
      TriedSlotSaved(env, x, s.triedEntries, newIds, triedIds, y.tTried, slot);
    }
    forall slot | slot in y.tTried
      ensures 0 <= IdAt(y.tTried, slot) < |newIds + triedIds|
      ensures RandomAt(newIds + triedIds, IdAt(y.tTried, slot)) == IdAt(x.tTried, slot)
    {
      TriedSlotSaved(env, x, s.triedEntries, newIds, triedIds, y.tTried, slot);
    }
  }

  lemma TriedSlotSaved(env: Env, x: State, entries: seq<Disk>, newIds: seq<int>, triedIds: seq<int>, t: Table,
                       slot: Slot)
    requires TriedTable(env, x.m, x.tTried) && Lists(newIds, NewIds(x.m, {})) && Lists(triedIds, TriedIds(x.m))
    requires EntriesOf(x.m, entries, triedIds) && t == TriedRestored(env, entries, |newIds|, |triedIds|)
    requires forall j, k :: 0 <= j < k < |entries| ==>
               env.TriedSlot(entries[j].addr.service) != env.TriedSlot(entries[k].addr.service)
    ensures slot in x.tTried <==> slot in t
    ensures slot in t ==>
              && 0 <= IdAt(t, slot) < |newIds + triedIds|
              && RandomAt(newIds + triedIds, IdAt(t, slot)) == IdAt(x.tTried, slot)
  {
    hide TriedRestored, TriedTable, TriedIds, NewIds, Lists, EntriesOf;
    if slot in t {
      RestoredWasSaved(env, x, entries, newIds, triedIds, t, slot);
    }
    if slot in x.tTried {
      SavedIsRestored(env, x, entries, newIds, triedIds, t, slot);
    }
  }

  lemma RestoredWasSaved(env: Env, x: State, entries: seq<Disk>, newIds: seq<int>, triedIds: seq<int>, t: Table,
                         slot: Slot)
    requires TriedTable(env, x.m, x.tTried) && Lists(newIds, NewIds(x.m, {})) && Lists(triedIds, TriedIds(x.m))
    requires EntriesOf(x.m, entries, triedIds) && t == TriedRestored(env, entries, |newIds|, |triedIds|) && slot in t
    ensures slot in x.tTried && 0 <= IdAt(t, slot) < |newIds + triedIds|
    ensures RandomAt(newIds + triedIds, IdAt(t, slot)) == IdAt(x.tTried, slot)
  {
    hide TriedRestored, NewIds;
    var nNew, nTried := |newIds|, |triedIds|;
    TriedRestoredAt(env, entries, nNew, nTried, slot);
    var j :| 0 <= j < nTried && slot == env.TriedSlot(entries[j].addr.service) && t[slot] == nNew + j;
    RenAt(x, newIds, triedIds, nNew + j);
    assert RandomAt(triedIds, j) in TriedIds(x.m);
  }

  lemma SavedIsRestored(env: Env, x: State, entries: seq<Disk>, newIds: seq<int>, triedIds: seq<int>, t: Table,
                        slot: Slot)
    requires TriedTable(env, x.m, x.tTried) && Lists(triedIds, TriedIds(x.m)) && slot in x.tTried
    requires EntriesOf(x.m, entries, triedIds) && t == TriedRestored(env, entries, |newIds|, |triedIds|)
    requires forall j, k :: 0 <= j < k < |entries| ==>
               env.TriedSlot(entries[j].addr.service) != env.TriedSlot(entries[k].addr.service)
    ensures slot in t
  {
    hide TriedRestored;
    var id := IdAt(x.tTried, slot);
    assert id in TriedIds(x.m) && id in triedIds;
    var j :| 0 <= j < |triedIds| && triedIds[j] == id;
    assert RandomAt(triedIds, j) == id;
    TriedRestoredHas(env, entries, |newIds|, |triedIds|, j);
  }

  lemma LoadedNew(env: Env, x: State, s: Stream, newIds: seq<int>, triedIds: seq<int>, idx: map<int, int>, t: Table)
    requires NewSaved(env, x.tNew, s.newEntries, newIds, idx) && t == Renamed(x.tNew, idx)
    requires Lists(newIds, NewIds(x.m, {})) && Lists(triedIds, TriedIds(x.m))
    ensures SameSlots(x.tNew, t, newIds + triedIds)
  {
    var ren := newIds + triedIds;
    forall slot | slot in t ensures 0 <= IdAt(t, slot) < |ren| && RandomAt(ren, IdAt(t, slot)) == IdAt(x.tNew, slot) {
      assert IdAt(t, slot) == idx[IdAt(x.tNew, slot)];
      RenAt(x, newIds, triedIds, IdAt(t, slot));
    }
  }

  // Main result: saving and loading loses nothing and renames ids.
  lemma RoundTrip(env: Env, x: State, s: Stream, newIds: seq<int>, triedIds: seq<int>, idx: map<int, int>, y: State)
    requires Agrees(env, x) && !env.keyIsNull && Encodes(env, x, s, newIds, triedIds, idx)
    requires Loaded(env, s, y)
    ensures SameUpToIds(env, x, y, newIds + triedIds)
  {
    hide AddrIndex, RandomIndex, NewTable, TriedTable, Fields, Clean, Restored, TriedRestored, Renamed, Flat,
         BothInfo, Counted, NewSaved, Lists, SameEntry, SameSlots;
    var ren := newIds + triedIds;
    SavedIsClean(env, x, s, newIds, triedIds, idx);
    SavedNew(env, x, s, newIds, triedIds, idx);
    RenLists(x, newIds, triedIds);
    LoadedEntries(env, x, s, newIds, triedIds, idx, y);
    LoadedTriedTable(env, x, s, newIds, triedIds, idx, y);
    LoadedNew(env, x, s, newIds, triedIds, idx, y.tNew);
    ListsSize(newIds, NewIds(x.m, {}));
    ListsSize(triedIds, TriedIds(x.m));
    forall net ensures CountOf(y.counts, net) == CountOf(x.counts, net) {
      NetSizes(env, x.m, y.m, ren, net);
    }
  }

  // The whole trip: what was saved loads, and loads to the same tables.
  method SaveAndLoad(env: Env, x: State) returns (r: Option<State>, ghost ren: seq<int>)
    requires Agrees(env, x) && !env.keyIsNull
    ensures r.Some? && SameUpToIds(env, x, r.value, ren)
    ensures AddrCheck.Consistent(env, r.value.m, r.value.a, r.value.v, r.value.tNew, r.value.tTried, r.value.nNew,
                                 r.value.nTried, r.value.counts)
  {
    hide Agrees, Encodes, Loaded, SameUpToIds, Clean, AddrCheck.Consistent;
    var s, newIds, triedIds, idx := Serialize(env, x);
    SavedIsClean(env, x, s, newIds, triedIds, idx);
    r := Unserialize(env, s);
    RoundTrip(env, x, s, newIds, triedIds, idx, r.value);
    ren := newIds + triedIds;
  }

  // The same for a live manager between two public operations.
  method SaveAndLoadManager(am: AddrMan.AddrMan) returns (r: Option<State>, ghost x: State, ghost ren: seq<int>)
    requires am.Valid()
    ensures x == State(am.mapInfo, am.mapAddr, am.vRandom, am.vvNew, am.vvTried, am.nIdCount, am.nNew, am.nTried,
                       am.netCounts)
    ensures r.Some? && SameUpToIds(am.env, x, r.value, ren)
  {
    hide SameUpToIds, AddrIndex, RandomIndex, NewTable, TriedTable, Counts, Fields;
    var state := State(am.mapInfo, am.mapAddr, am.vRandom, am.vvNew, am.vvTried, am.nIdCount, am.nNew, am.nTried,
                       am.netCounts);
    r, ren := SaveAndLoad(am.env, state);
    x := state;
  }
}
