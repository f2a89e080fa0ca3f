/** Address manager: entries, the redundant indexes over them, and what it
    means for the indexes to agree.  Everything here is about plain values; the
    class that updates them is in AddrMan.dfy. */
module AddrTables {
  import opened Basics

  const TRIED_BUCKET_COUNT := 256
  const NEW_BUCKET_COUNT := 1024
  const BUCKET_SIZE := 64
  const NEW_BUCKETS_PER_ADDRESS := 8
  const TRIED_BUCKETS_PER_GROUP := 8
  const NEW_BUCKETS_PER_SOURCE_GROUP := 64
  const SET_TRIED_COLLISION_SIZE := 10

  // Times are in seconds.
  const MINUTE := 60
  const HOUR := 3600
  const DAY := 86400
  const HORIZON := 30 * DAY
  const RETRIES := 3
  const MAX_FAILURES := 10
  const MIN_FAIL := 7 * DAY
  const REPLACEMENT := 4 * HOUR
  const TEST_WINDOW := 40 * MINUTE

  datatype Network = Unroutable | IPv4 | IPv6 | Onion | I2P | CJDNS | Internal

  datatype NetAddr = NetAddr(net: Network, bytes: seq<int>)

  datatype Service = Service(ip: NetAddr, port: nat)

  datatype Address = Address(service: Service, nTime: int, nServices: bv64)

  type Slot = (int, int)

  // The address range, or autonomous system, an address belongs to.
  type Group = nat

  /** The secret key and the net-group map enter only through these functions. */
  datatype Env = Env(
    keyIsNull: bool,
    group: NetAddr -> Group,
    serviceHash: Service -> nat,
    triedHash: (Group, nat) -> nat,
    groupHash: (Group, Group) -> nat,
    newHash: (Group, nat) -> nat,
    positionHash: (bool, int, Service) -> nat,
    network: NetAddr -> Network,
    netClass: NetAddr -> Network,
    routable: NetAddr -> bool,
    valid: NetAddr -> bool,
    asmapChecksum: nat)
  {
    function TriedBucket(s: Service): (b: int)
      ensures 0 <= b < TRIED_BUCKET_COUNT
    {
      triedHash(group(s.ip), serviceHash(s) % TRIED_BUCKETS_PER_GROUP) % TRIED_BUCKET_COUNT
    }

    function NewBucket(s: Service, source: NetAddr): (b: int)
      ensures 0 <= b < NEW_BUCKET_COUNT
    {
      newHash(group(source), groupHash(group(s.ip), group(source)) % NEW_BUCKETS_PER_SOURCE_GROUP) % NEW_BUCKET_COUNT
    }

    function Position(isNew: bool, bucket: int, s: Service): (p: int)
      ensures 0 <= p < BUCKET_SIZE
    {
      positionHash(isNew, bucket, s) % BUCKET_SIZE
    }

    function TriedSlot(s: Service): Slot {
      (TriedBucket(s), Position(false, TriedBucket(s), s))
    }

    function NewSlot(s: Service, source: NetAddr): Slot {
      (NewBucket(s, source), Position(true, NewBucket(s, source), s))
    }
  }

  datatype Info = Info(
    addr: Address,
    source: NetAddr,
    lastTry: int,
    lastCountAttempt: int,
    lastSuccess: int,
    nAttempts: int,
    nRefCount: int,
    fInTried: bool,
    nRandomPos: int)
  {
    predicate IsTerrible(now: int) {
      if now - lastTry <= MINUTE then false
      else if addr.nTime > now + 10 * MINUTE then true
      else if now - addr.nTime > HORIZON then true
      else if lastSuccess == 0 && nAttempts >= RETRIES then true
      else now - lastSuccess > MIN_FAIL && nAttempts >= MAX_FAILURES
    }
  }

  type InfoMap = map<int, Info>
  type Table = map<Slot, int>  // occupied slots only; an absent slot is an empty one (-1)
  type NetCounts = map<Network, (int, int)>

  // The rules in seconds: an entry not tried within a minute is given up if it claims to come from
  // the future, was not seen for thirty days, never worked in three attempts, or failed ten times
  // and for a week.
  lemma TerribleExactly(info: Info, now: int)
    ensures info.IsTerrible(now) <==>
            && now > info.lastTry + 60
            && (|| info.addr.nTime > now + 600
                || info.addr.nTime < now - 2592000
                || (info.nAttempts >= 3 && info.lastSuccess == 0)
                || (info.nAttempts >= 10 && info.lastSuccess < now - 604800))
  {}

  // Lookups as named functions, so that facts about the looked-up id are easy to find.
  function IdAt(t: Table, s: Slot): int
    requires s in t
  {
    t[s]
  }

  function IdOf(a: map<Service, int>, s: Service): int
    requires s in a
  {
    a[s]
  }

  function RandomAt(v: seq<int>, i: int): int
    requires 0 <= i < |v|
  {
    v[i]
  }

  function CountOf(counts: NetCounts, net: Network): (int, int) {
    if net in counts then counts[net] else (0, 0)
  }

  // ---- the indexes ----

  // mapAddr is the exact inverse of mapInfo.
  ghost predicate AddrIndex(m: InfoMap, a: map<Service, int>) {
    && (forall id :: id in m ==> m[id].addr.service in a && IdOf(a, m[id].addr.service) == id)
    && (forall s :: s in a ==> IdOf(a, s) in m && m[IdOf(a, s)].addr.service == s)
  }

  // vRandom lists every id once, and every entry knows its position there.
  ghost predicate RandomIndex(m: InfoMap, v: seq<int>) {
    && (forall id :: id in m ==> 0 <= m[id].nRandomPos < |v| && RandomAt(v, m[id].nRandomPos) == id)
    && (forall i :: 0 <= i < |v| ==> RandomAt(v, i) in m && m[RandomAt(v, i)].nRandomPos == i)
  }

  ghost function SlotsOf(t: Table, id: int): set<Slot> {
    set s | s in t && IdAt(t, s) == id
  }

  // Every occupied new slot is at the position its address hashes to, and reference
  // counts are exactly the number of slots.
  ghost predicate NewTable(env: Env, m: InfoMap, t: Table) {
    && (forall s :: s in t ==> && IdAt(t, s) in m
                               && 0 <= s.0 < NEW_BUCKET_COUNT
                               && s.1 == env.Position(true, s.0, m[IdAt(t, s)].addr.service))
    && (forall id :: id in m ==> m[id].nRefCount == |SlotsOf(t, id)|)
  }

  // The tried table holds exactly the tried entries, each at its own slot.
  ghost predicate TriedTable(env: Env, m: InfoMap, t: Table) {
    && (forall s :: s in t ==>
        IdAt(t, s) in m && m[IdAt(t, s)].fInTried && s == env.TriedSlot(m[IdAt(t, s)].addr.service))
    && (forall id :: id in m && m[id].fInTried ==>
          env.TriedSlot(m[id].addr.service) in t && IdAt(t, env.TriedSlot(m[id].addr.service)) == id)
  }

  // `zero` are the entries between two homes: in neither table for the moment.
  ghost predicate Fields(env: Env, m: InfoMap, nIdCount: int, zero: set<int>) {
    forall id :: id in m ==>
      && 0 <= id < nIdCount
      && env.valid(m[id].addr.service.ip)
      && m[id].lastTry >= 0
      && m[id].lastSuccess >= 0
      && (m[id].fInTried ==> m[id].lastSuccess > 0 && m[id].nRefCount == 0)
      && (!m[id].fInTried ==> 0 <= m[id].nRefCount <= NEW_BUCKETS_PER_ADDRESS)
      && (!m[id].fInTried && m[id].nRefCount == 0 ==> id in zero)
  }

  // `limbo` are the entries counted neither as new nor as tried for the moment.
  ghost function NewIds(m: InfoMap, limbo: set<int>): set<int> {
    set id | id in m && !m[id].fInTried && id !in limbo
  }

  ghost function TriedIds(m: InfoMap): set<int> {
    set id | id in m && m[id].fInTried
  }

  ghost function NewIdsOf(env: Env, m: InfoMap, limbo: set<int>, net: Network): set<int> {
    set id | id in m && !m[id].fInTried && id !in limbo && env.network(m[id].addr.service.ip) == net
  }

  ghost function TriedIdsOf(env: Env, m: InfoMap, net: Network): set<int> {
    set id | id in m && m[id].fInTried && env.network(m[id].addr.service.ip) == net
  }

  ghost predicate NetCountsOk(env: Env, m: InfoMap, limbo: set<int>, counts: NetCounts) {
    forall net :: CountOf(counts, net) == (|NewIdsOf(env, m, limbo, net)|, |TriedIdsOf(env, m, net)|)
  }

  ghost predicate Counts(env: Env, m: InfoMap, limbo: set<int>, nNew: int, nTried: int, counts: NetCounts) {
    && nNew == |NewIds(m, limbo)|
    && nTried == |TriedIds(m)|
    && NetCountsOk(env, m, limbo, counts)
  }

  // ---- how far a group of addresses can spread ----

  ghost function Image(f: nat -> int, n: nat): set<int> {
    if n == 0 then {} else Image(f, n - 1) + {f(n - 1)}
  }

  lemma {:induction false} ImageFacts(f: nat -> int, n: nat)
    ensures |Image(f, n)| <= n && forall i: nat :: i < n ==> f(i) in Image(f, n)
  {
    if n > 0 {
      ImageFacts(f, n - 1);
    }
  }

  // The tried buckets of the entries of one group.
  ghost function TriedBuckets(env: Env, m: InfoMap, t: Table, g: Group): set<int> {
    set s | s in t && IdAt(t, s) in m && env.group(m[IdAt(t, s)].addr.service.ip) == g :: s.0
  }

  // The tried entries of one group are in at most eight buckets.
  lemma TriedBucketsOfGroup(env: Env, m: InfoMap, t: Table, g: Group)
    requires TriedTable(env, m, t)
    ensures |TriedBuckets(env, m, t, g)| <= 8
  {
    var f := (i: nat) => env.triedHash(g, i) % TRIED_BUCKET_COUNT;
    ImageFacts(f, TRIED_BUCKETS_PER_GROUP);
    forall b | b in TriedBuckets(env, m, t, g) ensures b in Image(f, TRIED_BUCKETS_PER_GROUP) {
      var s :| s in t && IdAt(t, s) in m && env.group(m[IdAt(t, s)].addr.service.ip) == g && b == s.0;
      TriedBucketInImage(env, m[IdAt(t, s)].addr.service, f);
    }
    SubsetSize(TriedBuckets(env, m, t, g), Image(f, TRIED_BUCKETS_PER_GROUP));
  }

  lemma TriedBucketInImage(env: Env, s: Service, f: nat -> int)
    requires forall i: nat :: f(i) == env.triedHash(env.group(s.ip), i) % TRIED_BUCKET_COUNT
    ensures env.TriedBucket(s) in Image(f, TRIED_BUCKETS_PER_GROUP)
  {
    hide Image;
    ImageFacts(f, TRIED_BUCKETS_PER_GROUP);
    assert env.TriedBucket(s) == f(env.serviceHash(s) % TRIED_BUCKETS_PER_GROUP);
  }

  // Whatever is offered by the addresses of one source group reaches at most 64 new buckets, and
  // what is offered for one group only one.
  lemma NewBucketsOfSource(env: Env, offers: set<(Service, NetAddr)>, g: Group)
    requires forall o :: o in offers ==> env.group(o.1) == g
    ensures |set o | o in offers :: env.NewBucket(o.0, o.1)| <= 64
    ensures forall o, p :: o in offers && p in offers && env.group(o.0.ip) == env.group(p.0.ip) ==>
              env.NewBucket(o.0, o.1) == env.NewBucket(p.0, p.1)
  {
    hide Image;
    var f := (i: nat) => env.newHash(g, i) % NEW_BUCKET_COUNT;
    var buckets := set o | o in offers :: env.NewBucket(o.0, o.1);
    ImageFacts(f, NEW_BUCKETS_PER_SOURCE_GROUP);
    forall b | b in buckets ensures b in Image(f, NEW_BUCKETS_PER_SOURCE_GROUP) {
      var o :| o in offers && b == env.NewBucket(o.0, o.1);
      assert b == f(env.groupHash(env.group(o.0.ip), g) % NEW_BUCKETS_PER_SOURCE_GROUP);
    }
    SubsetSize(buckets, Image(f, NEW_BUCKETS_PER_SOURCE_GROUP));
  }

  // ---- frames: which fields each index depends on ----

  // The same entries except for their positions in vRandom.
  ghost predicate SameButPos(m: InfoMap, m': InfoMap) {
    && (forall id :: id in m ==> id in m' && m'[id] == m[id].(nRandomPos := m'[id].nRandomPos))
    && (forall id :: id in m' ==> id in m)
  }

  // The same entries except for times, services and attempt counters.
  ghost predicate SameIndexed(m: InfoMap, m': InfoMap) {
    && (forall id :: id in m ==>
          && id in m'
          && m'[id].addr.service == m[id].addr.service
          && m'[id].nRefCount == m[id].nRefCount
          && m'[id].fInTried == m[id].fInTried)
    && (forall id :: id in m' ==> id in m)
  }

  lemma TablesFrame(env: Env, m: InfoMap, m': InfoMap, a: map<Service, int>, tNew: Table, tTried: Table)
    requires SameIndexed(m, m')
    requires AddrIndex(m, a) && NewTable(env, m, tNew) && TriedTable(env, m, tTried)
    ensures AddrIndex(m', a) && NewTable(env, m', tNew) && TriedTable(env, m', tTried)
  {}

  // The same entries in the same tables.
  ghost predicate SameTable(m: InfoMap, m': InfoMap) {
    && (forall id :: id in m ==>
        id in m' && m'[id].addr.service == m[id].addr.service && m'[id].fInTried == m[id].fInTried)
    && (forall id :: id in m' ==> id in m)
  }

  lemma CountsFrame(env: Env, m: InfoMap, m': InfoMap, limbo: set<int>, nNew: int, nTried: int, counts: NetCounts)
    requires SameTable(m, m')
    requires Counts(env, m, limbo, nNew, nTried, counts)
    ensures Counts(env, m', limbo, nNew, nTried, counts)
  {
    assert forall id :: id in m <==> id in m';
    assert forall id :: id in m ==> m'[id].fInTried == m[id].fInTried && m'[id].addr.service == m[id].addr.service;
    assert NewIds(m', limbo) == NewIds(m, limbo);
    assert TriedIds(m') == TriedIds(m);
    forall net
      ensures CountOf(counts, net) == (|NewIdsOf(env, m', limbo, net)|, |TriedIdsOf(env, m', net)|)
    {
      assert NewIdsOf(env, m', limbo, net) == NewIdsOf(env, m, limbo, net);
      assert TriedIdsOf(env, m', net) == TriedIdsOf(env, m, net);
    }
  }

  // ---- counting ----

  // Add k to the new count, j to the tried count of a network.
  function Bump(counts: NetCounts, net: Network, k: int, j: int): NetCounts {
    counts[net := (CountOf(counts, net).0 + k, CountOf(counts, net).1 + j)]
  }

  // 1 if the entry is counted as new.
  ghost function New1(m: InfoMap, limbo: set<int>, id: int): int {
    if id in m && !m[id].fInTried && id !in limbo then 1 else 0
  }

  ghost function Tried1(m: InfoMap, id: int): int {
    if id in m && m[id].fInTried then 1 else 0
  }

  // Two states that differ in one entry differ in their counts by that entry's contribution.
  lemma CountsDelta(env: Env, m: InfoMap, m': InfoMap, limbo: set<int>, limbo': set<int>, id: int, net: Network,
                    nNew: int, nTried: int, counts: NetCounts)
    requires Counts(env, m, limbo, nNew, nTried, counts)
    requires m - {id} == m' - {id} && limbo - {id} == limbo' - {id}
    requires id in m ==> env.network(m[id].addr.service.ip) == net
    requires id in m' ==> env.network(m'[id].addr.service.ip) == net
    ensures var k, j := New1(m', limbo', id) - New1(m, limbo, id), Tried1(m', id) - Tried1(m, id);
            Counts(env, m', limbo', nNew + k, nTried + j, Bump(counts, net, k, j))
  {
    hide NewIds, NewIdsOf, TriedIds, TriedIdsOf;
    TotalsDelta(m, m', limbo, limbo', id);
    var k, j := New1(m', limbo', id) - New1(m, limbo, id), Tried1(m', id) - Tried1(m, id);
    forall n
      ensures CountOf(Bump(counts, net, k, j), n) == (|NewIdsOf(env, m', limbo', n)|, |TriedIdsOf(env, m', n)|)
    {
      NetDelta(env, m, m', limbo, limbo', id, net, n);
    }
  }

  lemma Elsewhere(m: InfoMap, m': InfoMap, limbo: set<int>, limbo': set<int>, id: int)
    requires m - {id} == m' - {id} && limbo - {id} == limbo' - {id}
    ensures forall x :: x != id ==> (x in m <==> x in m') && (x in limbo <==> x in limbo') && (x in m ==> m[x] == m'[x])
  {
    forall x | x != id ensures (x in m <==> x in m') && (x in limbo <==> x in limbo') && (x in m ==> m[x] == m'[x]) {
      assert x in m <==> x in m - {id};
      assert x in m' <==> x in m' - {id};
      assert x in limbo <==> x in limbo - {id};
      assert x in limbo' <==> x in limbo' - {id};
      assert x in m ==> (m - {id})[x] == m[x] && (m' - {id})[x] == m'[x];
    }
  }

  lemma TotalsDelta(m: InfoMap, m': InfoMap, limbo: set<int>, limbo': set<int>, id: int)
    requires m - {id} == m' - {id} && limbo - {id} == limbo' - {id}
    ensures |NewIds(m', limbo')| - |NewIds(m, limbo)| == New1(m', limbo', id) - New1(m, limbo, id)
    ensures |TriedIds(m')| - |TriedIds(m)| == Tried1(m', id) - Tried1(m, id)
  {
    Elsewhere(m, m', limbo, limbo', id);
    OneElement(NewIds(m, limbo), NewIds(m', limbo'), id);
    OneElement(TriedIds(m), TriedIds(m'), id);
  }

  lemma NetDelta(env: Env, m: InfoMap, m': InfoMap, limbo: set<int>, limbo': set<int>, id: int, net: Network,
                 n: Network)
    requires m - {id} == m' - {id} && limbo - {id} == limbo' - {id}
    requires id in m ==> env.network(m[id].addr.service.ip) == net
    requires id in m' ==> env.network(m'[id].addr.service.ip) == net
    ensures |NewIdsOf(env, m', limbo', n)| - |NewIdsOf(env, m, limbo, n)| ==
            if n == net then New1(m', limbo', id) - New1(m, limbo, id) else 0
    ensures |TriedIdsOf(env, m', n)| - |TriedIdsOf(env, m, n)| == if n == net then Tried1(m', id) - Tried1(m, id) else 0
  {
    Elsewhere(m, m', limbo, limbo', id);
    OneElement(NewIdsOf(env, m, limbo, n), NewIdsOf(env, m', limbo', n), id);
    OneElement(TriedIdsOf(env, m, n), TriedIdsOf(env, m', n), id);
  }

  lemma OneElement(s: set<int>, s': set<int>, x: int)
    requires forall y :: y != x ==> (y in s <==> y in s')
    ensures |s'| - |s| == (if x in s' then 1 else 0) - (if x in s then 1 else 0)
  {
    assert forall y :: y in s - {x} <==> y in s' - {x};
    assert s - {x} == s' - {x};
    assert |s - {x}| == |s| - (if x in s then 1 else 0);
    assert |s' - {x}| == |s'| - (if x in s' then 1 else 0);
  }

  lemma SlotsRemove(t: Table, slot: Slot)
    requires slot in t
    ensures forall id :: |SlotsOf(t - {slot}, id)| == |SlotsOf(t, id)| - (if t[slot] == id then 1 else 0)
  {
    forall id
      ensures |SlotsOf(t - {slot}, id)| == |SlotsOf(t, id)| - (if t[slot] == id then 1 else 0)
    {
      assert SlotsOf(t - {slot}, id) == SlotsOf(t, id) - {slot};
    }
  }

  lemma SlotsAdd(t: Table, slot: Slot, x: int)
    requires slot !in t
    ensures forall id :: |SlotsOf(t[slot := x], id)| == |SlotsOf(t, id)| + (if x == id then 1 else 0)
  {
    forall id
      ensures |SlotsOf(t[slot := x], id)| == |SlotsOf(t, id)| + (if x == id then 1 else 0)
    {
      SlotAdded(t, slot, x, id);
    }
  }

  lemma SlotAdded(t: Table, slot: Slot, x: int, id: int)
    requires slot !in t
    ensures |SlotsOf(t[slot := x], id)| == |SlotsOf(t, id)| + (if x == id then 1 else 0)
  {
    var t' := t[slot := x];
    assert forall s :: s in t ==> IdAt(t', s) == IdAt(t, s);
    assert IdAt(t', slot) == x && slot !in SlotsOf(t, id);
    if x == id {
      assert forall s :: s in SlotsOf(t', id) <==> s in SlotsOf(t, id) + {slot};
      assert SlotsOf(t', id) == SlotsOf(t, id) + {slot};
    } else {
      assert forall s :: s in SlotsOf(t', id) <==> s in SlotsOf(t, id);
      assert SlotsOf(t', id) == SlotsOf(t, id);
    }
  }
}
