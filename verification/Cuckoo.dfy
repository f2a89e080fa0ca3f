/** The cuckoo cache of validated signatures and scripts: a table in which an element
    may sit at any of eight slots, entries are erased lazily by marking them
    collectable, and generations of entries are aged by epoch. */
module Cuckoo {
  import opened Basics
  import opened Limbs

  // Elements are digests; a table starts out filled with the all-zero one.
  type Element = nat

  const EMPTY: Element := 0

  type HashFunction = (nat, Element) -> Limb

  // The three parallel containers of the cache.
  datatype Store = Store(table: seq<Element>, collected: seq<bool>, epochs: seq<bool>)

  ghost predicate Shape(s: Store, size: nat) {
    2 <= size < BASE && |s.table| == size && |s.collected| == size && |s.epochs| == size
  }

  // ---- hash locations ----

  function FastRange32(x: Limb, n: Limb): (r: Limb)
    ensures n > 0 ==> r < n
  {
    RangeBound(x, n);
    x * n / BASE
  }

  lemma RangeBound(x: Limb, n: Limb)
    ensures 0 <= x * n / BASE <= n && (n > 0 ==> x * n / BASE < n)
  {
    MulMonotone(n, x, BASE - 1);
    MulMonotone(n, 0, x);
  }

  // The first x that a range of n maps to r.
  ghost function Low(r: nat, n: nat): nat
    requires n > 0
  {
    (r * BASE + n - 1) / n
  }

  lemma LowFacts(r: nat, n: nat)
    requires n > 0
    ensures r * BASE <= Low(r, n) * n < r * BASE + n
  {
    var y := r * BASE + n - 1;
    assert y == n * (y / n) + y % n;
  }

  lemma AtLeastLow(x: nat, r: nat, n: nat)
    requires n > 0
    ensures x * n >= r * BASE <==> x >= Low(r, n)
  {
    hide Low;
    LowFacts(r, n);
    if x >= Low(r, n) {
      MulMonotone(n, Low(r, n), x);
    } else {
      MulMonotone(n, x, Low(r, n) - 1);
    }
  }

  // As even as a remainder would be: each of the n results is given by one stretch of the 32-bit
  // numbers, and all stretches have the same length up to one.
  lemma NearlyUniform(x: Limb, n: Limb, r: nat)
    requires n > 0 && r < n
    ensures FastRange32(x, n) == r <==> Low(r, n) <= x < Low(r + 1, n)
    ensures BASE / n <= Low(r + 1, n) - Low(r, n) <= BASE / n + 1
    ensures Low(0, n) == 0 && Low(n, n) == BASE
  {
    hide Low;
    AtLeastLow(x, r, n);
    AtLeastLow(x, r + 1, n);
    QuotientIs(x * n, r);
    LowFacts(r, n);
    LowFacts(r + 1, n);
    Stretch(Low(r, n), Low(r + 1, n), r, n);
    LowEnds(n);
  }

  lemma QuotientIs(y: nat, r: nat)
    ensures y / BASE == r <==> r * BASE <= y < (r + 1) * BASE
  {}

  lemma LowEnds(n: nat)
    requires n > 0
    ensures Low(0, n) == 0 && Low(n, n) == BASE
  {
    DivModUnique(n - 1, n, 0, n - 1);
    DivModUnique(n * BASE + n - 1, n, BASE, n - 1);
  }

  lemma Stretch(a: nat, b: nat, r: nat, n: nat)
    requires n > 0 && r * BASE <= a * n < r * BASE + n && (r + 1) * BASE <= b * n < (r + 1) * BASE + n
    ensures BASE / n <= b - a <= BASE / n + 1
  {
    var q := BASE / n;
    assert BASE == n * q + BASE % n;
    assert n * (b - a) == b * n - a * n;
    if b - a < q {
      MulMonotone(n, b - a, q - 1);
      MulSum(n, q, -1);
    } else if b - a > q + 1 {
      MulMonotone(n, q + 2, b - a);
      MulSum(n, q, 2);
    }
  }

  function Locs(h: HashFunction, e: Element, size: Limb): (r: seq<Limb>)
    ensures |r| == 8
    ensures size > 0 ==> forall k :: 0 <= k < 8 ==> r[k] < size
  {
    [FastRange32(h(0, e), size), FastRange32(h(1, e), size), FastRange32(h(2, e), size), FastRange32(h(3, e), size),
     FastRange32(h(4, e), size), FastRange32(h(5, e), size), FastRange32(h(6, e), size), FastRange32(h(7, e), size)]
  }

  // One location for each of the eight hash functions, in their order.
  lemma LocationOfHash(h: HashFunction, e: Element, size: Limb, k: nat)
    requires k < 8
    ensures Locs(h, e, size)[k] == FastRange32(h(k, e), size)
  {}

  ghost predicate InTable(locs: seq<Limb>, size: nat) {
    |locs| == 8 && forall k :: 0 <= k < 8 ==> locs[k] < size
  }

  // Position of the first slot that holds e, or 8.
  ghost function FirstHolding(locs: seq<Limb>, table: seq<Element>, e: Element, k: nat := 0): (r: nat)
    requires InTable(locs, |table|) && k <= 8
    ensures k <= r <= 8
    ensures forall j :: k <= j < r ==> table[locs[j]] != e
    ensures r < 8 ==> table[locs[r]] == e
    decreases 8 - k
  {
    if k == 8 || table[locs[k]] == e then k else FirstHolding(locs, table, e, k + 1)
  }

  // Position of the first slot that may be overwritten, or 8.
  ghost function FirstFree(locs: seq<Limb>, collected: seq<bool>, k: nat := 0): (r: nat)
    requires InTable(locs, |collected|) && k <= 8
    ensures k <= r <= 8
    ensures forall j :: k <= j < r ==> !collected[locs[j]]
    ensures r < 8 ==> collected[locs[r]]
    decreases 8 - k
  {
    if k == 8 || collected[locs[k]] then k else FirstFree(locs, collected, k + 1)
  }

  // Position of a slot number among the locations, or 8.
  function Find(locs: seq<Limb>, x: nat, k: nat := 0): (r: nat)
    requires |locs| == 8 && k <= 8
    ensures k <= r <= 8
    ensures forall j :: k <= j < r ==> locs[j] != x
    ensures r < 8 ==> locs[r] == x
    decreases 8 - k
  {
    if k == 8 || locs[k] == x then k else Find(locs, x, k + 1)
  }

  // The slot to evict from: the one after the last slot looked at.
  function NextLoc(locs: seq<Limb>, last: nat): (r: Limb)
    requires |locs| == 8
    ensures r in locs
  {
    locs[(1 + Find(locs, last)) % 8]
  }

  // ---- what is stored ----

  // An element sits at one of its own locations, unless it is filler never written.
  ghost predicate SlotOk(s: Store, h: HashFunction, size: Limb, i: nat)
    requires Shape(s, size) && i < size
  {
    i in Locs(h, s.table[i], size) || (s.table[i] == EMPTY && s.collected[i])
  }

  ghost predicate Located(s: Store, h: HashFunction, size: Limb)
    requires Shape(s, size)
  {
    forall i: nat {:trigger SlotOk(s, h, size, i)} :: i < size ==> SlotOk(s, h, size, i)
  }

  // No element other than the filler is stored twice.
  ghost predicate Unique(table: seq<Element>) {
    forall x: Element :: x != EMPTY ==> multiset(table)[x] <= 1
  }

  ghost function SlotOf(s: Store, i: nat): (m: multiset<(Element, bool)>)
    requires i < |s.table| == |s.collected| == |s.epochs|
  {
    if s.collected[i] then multiset{} else multiset{(s.table[i], s.epochs[i])}
  }

  // The entries that may not be overwritten, with their generation.
  ghost function Kept(s: Store, n: nat): (m: multiset<(Element, bool)>)
    requires n <= |s.table| == |s.collected| == |s.epochs|
  {
    if n == 0 then multiset{} else Kept(s, n - 1) + SlotOf(s, n - 1)
  }

  ghost function YoungAt(s: Store, i: nat): (r: nat)
    requires i < |s.collected| == |s.epochs|
  {
    if s.epochs[i] && !s.collected[i] then 1 else 0
  }

  // How many entries of the current generation may not be overwritten.
  ghost function Young(s: Store, n: nat): (r: nat)
    requires n <= |s.collected| == |s.epochs|
    ensures r <= n
  {
    if n == 0 then 0 else Young(s, n - 1) + YoungAt(s, n - 1)
  }

  // Overwriting slot i.
  ghost function Put(s: Store, i: nat, e: Element, epoch: bool, collected: bool): (r: Store)
    requires i < |s.table| == |s.collected| == |s.epochs|
    ensures |r.table| == |r.collected| == |r.epochs| == |s.table|
  {
    Store(s.table[i := e], s.collected[i := collected], s.epochs[i := epoch])
  }

  lemma {:induction false} KeptPut(s: Store, i: nat, e: Element, epoch: bool, collected: bool, n: nat)
    requires i < n <= |s.table| == |s.collected| == |s.epochs|
    ensures var s' := Put(s, i, e, epoch, collected); Kept(s', n) + SlotOf(s, i) == Kept(s, n) + SlotOf(s', i)
  {
    hide Kept, SlotOf, Put;
    var s' := Put(s, i, e, epoch, collected);
    KeptUnfold(s, n);
    KeptUnfold(s', n);
    if i < n - 1 {
      KeptPut(s, i, e, epoch, collected, n - 1);
      SlotElsewhere(s, i, e, epoch, collected, n - 1);
      AlsoKept(Kept(s', n - 1), Kept(s, n - 1), SlotOf(s, i), SlotOf(s', i), SlotOf(s, n - 1));
    } else {
      KeptBelow(s, i, e, epoch, collected, i);
      Regroup(Kept(s, i), SlotOf(s, i), SlotOf(s', i));
    }
  }

  lemma {:induction false} KeptBelow(s: Store, i: nat, e: Element, epoch: bool, collected: bool, n: nat)
    requires n <= i < |s.table| == |s.collected| == |s.epochs|
    ensures Kept(Put(s, i, e, epoch, collected), n) == Kept(s, n)
  {
    hide Kept, SlotOf, Put;
    var s' := Put(s, i, e, epoch, collected);
    KeptUnfold(s, n);
    KeptUnfold(s', n);
    if n > 0 {
      KeptBelow(s, i, e, epoch, collected, n - 1);
      SlotElsewhere(s, i, e, epoch, collected, n - 1);
    }
  }

  lemma KeptUnfold(s: Store, n: nat)
    requires n <= |s.table| == |s.collected| == |s.epochs|
    ensures Kept(s, n) == if n == 0 then multiset{} else Kept(s, n - 1) + SlotOf(s, n - 1)
  {}

  lemma AlsoKept<T>(k': multiset<T>, k: multiset<T>, a: multiset<T>, b: multiset<T>, x: multiset<T>)
    requires k' + a == k + b
    ensures (k' + x) + a == (k + x) + b
  {
    Regroup(k', x, a);
    Regroup(k, x, b);
  }

  lemma SlotElsewhere(s: Store, i: nat, e: Element, epoch: bool, collected: bool, j: nat)
    requires i < |s.table| == |s.collected| == |s.epochs| && j < |s.table|
    ensures j != i ==> SlotOf(Put(s, i, e, epoch, collected), j) == SlotOf(s, j)
  {}

  lemma Regroup<T>(a: multiset<T>, b: multiset<T>, c: multiset<T>)
    ensures (a + b) + c == (a + c) + b
  {}

  lemma {:induction false} YoungPut(s: Store, i: nat, e: Element, epoch: bool, collected: bool, n: nat)
    requires i < |s.table| == |s.collected| == |s.epochs| && n <= |s.table|
    ensures var s' := Put(s, i, e, epoch, collected);
            Young(s', n) + (if i < n then YoungAt(s, i) else 0) == Young(s, n) + (if i < n then YoungAt(s', i) else 0)
  {
    if n > 0 {
      YoungPut(s, i, e, epoch, collected, n - 1);
    }
  }

  lemma LocatedPut(s: Store, h: HashFunction, size: Limb, i: nat, e: Element, epoch: bool, collected: bool)
    requires Shape(s, size) && Located(s, h, size) && i < size && i in Locs(h, e, size)
    ensures Located(Put(s, i, e, epoch, collected), h, size)
  {
    var s' := Put(s, i, e, epoch, collected);
    forall j: nat | j < size ensures SlotOk(s', h, size, j) {
      assert SlotOk(s, h, size, j);
    }
  }

  // ---- inserting ----

  // Where an insertion ends: the new contents and the one entry that is gone.
  datatype Outcome = Outcome(store: Store, dropped: Element, droppedEpoch: bool, garbage: bool)

  // Put e, of generation `epoch`, into a free slot, or else in place of another entry that is
  // then put somewhere in turn.
  ghost function Displace(h: HashFunction, size: Limb, s: Store, e: Element, epoch: bool, last: nat,
                          depth: nat): (r: Outcome)
    requires Shape(s, size)
    decreases depth
  {
    if depth == 0 then Outcome(s, e, epoch, false)
    else
      var locs := Locs(h, e, size);
      var k := FirstFree(locs, s.collected);
      if k < 8 then
        var i := locs[k];
        Outcome(Put(s, i, e, epoch, false), s.table[i], s.epochs[i], true)
      else
        var i := NextLoc(locs, last);
        Displace(h, size, Put(s, i, e, epoch, s.collected[i]), s.table[i], s.epochs[i], i, depth - 1)
  }

  // Nothing is lost but one entry, and an entry that was to be kept only if no slot was free.
  ghost predicate Conserves(s: Store, e: Element, epoch: bool, r: Outcome, size: nat)
    requires Shape(s, size)
  {
    && Shape(r.store, size)
    && multiset(r.store.table) + multiset{r.dropped} == multiset(s.table) + multiset{e}
    && Kept(r.store, size) + (if r.garbage then multiset{} else multiset{(r.dropped, r.droppedEpoch)})
       == Kept(s, size) + multiset{(e, epoch)}
    && Young(r.store, size) <= Young(s, size) + (if epoch then 1 else 0)
  }

  lemma {:induction false} DisplaceConserves(h: HashFunction, size: Limb, s: Store, e: Element, epoch: bool,
                                             last: nat, depth: nat)
    requires Shape(s, size) && Located(s, h, size)
    ensures var r := Displace(h, size, s, e, epoch, last, depth);
            Conserves(s, e, epoch, r, size) && Located(r.store, h, size)
    decreases depth
  {
    hide Locs, Conserves, Located, Kept, Young;
    if depth == 0 {
      DropIt(s, e, epoch, size);
    } else {
      var locs := Locs(h, e, size);
      var k := FirstFree(locs, s.collected);
      if k < 8 {
        LocatedPut(s, h, size, locs[k], e, epoch, false);
        PutFree(s, locs[k], e, epoch, size);
      } else {
        var i := NextLoc(locs, last);
        var s' := Put(s, i, e, epoch, s.collected[i]);
        LocatedPut(s, h, size, i, e, epoch, s.collected[i]);
        DisplaceConserves(h, size, s', s.table[i], s.epochs[i], i, depth - 1);
        PutSwapped(s, i, e, epoch, Displace(h, size, s', s.table[i], s.epochs[i], i, depth - 1), size);
      }
    }
  }

  lemma DropIt(s: Store, e: Element, epoch: bool, size: Limb)
    requires Shape(s, size)
    ensures Conserves(s, e, epoch, Outcome(s, e, epoch, false), size)
  {}

  lemma PutFree(s: Store, i: nat, e: Element, epoch: bool, size: Limb)
    requires Shape(s, size) && i < size && s.collected[i]
    ensures Conserves(s, e, epoch, Outcome(Put(s, i, e, epoch, false), s.table[i], s.epochs[i], true), size)
  {
    hide Kept, Young;
    KeptPut(s, i, e, epoch, false, size);
    YoungPut(s, i, e, epoch, false, size);
    Replaced(s.table, i, e);
  }

  lemma PutSwapped(s: Store, i: nat, e: Element, epoch: bool, r: Outcome, size: Limb)
    requires Shape(s, size) && i < size && !s.collected[i]
    requires Conserves(Put(s, i, e, epoch, s.collected[i]), s.table[i], s.epochs[i], r, size)
    ensures Conserves(s, e, epoch, r, size)
  {
    hide Kept, Young;
    KeptPut(s, i, e, epoch, s.collected[i], size);
    YoungPut(s, i, e, epoch, s.collected[i], size);
    Replaced(s.table, i, e);
  }

  lemma Replaced(t: seq<Element>, i: nat, e: Element)
    requires i < |t|
    ensures multiset(t[i := e]) + multiset{t[i]} == multiset(t) + multiset{e}
  {
    assert multiset(t[i := e]) == multiset(t) - multiset{t[i]} + multiset{e};
  }

  // Within the eight slots means within the table.
  lemma NotHeld(s: Store, h: HashFunction, size: Limb, e: Element)
    requires Shape(s, size) && Located(s, h, size) && e != EMPTY
    ensures FirstHolding(Locs(h, e, size), s.table, e) < 8 <==> e in s.table
  {
    hide Locs;
    var locs := Locs(h, e, size);
    if e in s.table {
      var i :| 0 <= i < |s.table| && s.table[i] == e;
      assert SlotOk(s, h, size, i);
      var j :| 0 <= j < 8 && locs[j] == i;
      assert s.table[locs[j]] == e;
    }
  }

  lemma StaysUnique(s: Store, h: HashFunction, size: Limb, e: Element, epoch: bool, r: Outcome)
    requires Shape(s, size) && Located(s, h, size) && Unique(s.table)
    requires FirstHolding(Locs(h, e, size), s.table, e) == 8 && Conserves(s, e, epoch, r, size)
    ensures Unique(r.store.table)
  {
    hide Kept, Young, Locs, Located;
    if e != EMPTY {
      NotHeld(s, h, size, e);
      assert multiset(s.table)[e] == 0;
    }
    forall x: Element | x != EMPTY ensures multiset(r.store.table)[x] <= 1 {
      assert (multiset(r.store.table) + multiset{r.dropped})[x] == (multiset(s.table) + multiset{e})[x];
    }
  }

  // ---- generations ----

  // Old entries become collectable and the current ones old, once there are enough of them.
  ghost function Aged(s: Store, size: nat, counter: nat, epochSize: nat): (r: Store)
    requires Shape(s, size)
  {
    if counter == 0 && Young(s, size) >= epochSize
    then Store(s.table, seq(size, i requires 0 <= i < size => s.collected[i] || !s.epochs[i]), seq(size, i => false))
    else s
  }

  ghost function NextCounter(s: Store, size: nat, counter: nat, epochSize: nat): (r: nat)
    requires Shape(s, size)
  {
    if counter > 0 then counter - 1
    else if Young(s, size) >= epochSize then epochSize
    else Max(1, Max(epochSize / 16, epochSize - Young(s, size)))
  }

  // The counter leaves room for every insertion until the next scan.
  ghost predicate Budget(s: Store, size: nat, counter: nat, epochSize: nat)
    requires Shape(s, size)
  {
    epochSize >= 1 && Young(s, size) + counter <= epochSize + Max(1, epochSize / 16)
  }

  lemma {:induction false} NoneYoung(s: Store, n: nat)
    requires n <= |s.collected| == |s.epochs| && forall i :: 0 <= i < n ==> !s.epochs[i] || s.collected[i]
    ensures Young(s, n) == 0
  {
    if n > 0 {
      NoneYoung(s, n - 1);
    }
  }

  // A check keeps the table and its current entries, and makes room for one more insertion.
  lemma CheckLeavesRoom(s: Store, h: HashFunction, size: Limb, counter: nat, epochSize: nat)
    requires Shape(s, size) && Located(s, h, size) && Budget(s, size, counter, epochSize)
    ensures var s', c' := Aged(s, size, counter, epochSize), NextCounter(s, size, counter, epochSize);
            && Shape(s', size) && s'.table == s.table && Located(s', h, size)
            && epochSize >= 1 && Young(s', size) + 1 + c' <= epochSize + Max(1, epochSize / 16)
            && (forall i :: 0 <= i < size && s.epochs[i] ==> s'.collected[i] == s.collected[i])
            && (forall i :: 0 <= i < size && s.collected[i] ==> s'.collected[i])
  {
    var s' := Aged(s, size, counter, epochSize);
    if counter == 0 && Young(s, size) >= epochSize {
      NoneYoung(s', size);
    }
    forall i: nat | i < size ensures SlotOk(s', h, size, i) {
      assert SlotOk(s, h, size, i);
    }
  }

  // A scan that finds the current generation full turns the generations over.
  ghost predicate TurnsOver(s: Store, size: nat, counter: nat, epochSize: nat)
    requires Shape(s, size)
  {
    counter == 0 && Young(s, size) >= epochSize
  }

  // A turnover frees exactly the old generation; the current one stays and is the old one now.
  lemma TurnoverFreesOld(s: Store, size: nat, counter: nat, epochSize: nat)
    requires Shape(s, size)
    ensures var s' := Aged(s, size, counter, epochSize);
            if TurnsOver(s, size, counter, epochSize) then
              && Young(s', size) == 0
              && forall i :: 0 <= i < size && !s.collected[i] ==>
                   s'.table[i] == s.table[i] && !s'.epochs[i] && (s'.collected[i] <==> !s.epochs[i])
            else s' == s
  {
    var s' := Aged(s, size, counter, epochSize);
    if TurnsOver(s, size, counter, epochSize) {
      NoneYoung(s', size);
    }
  }

  // Whatever is left alone in its slot through two turnovers may be overwritten.
  lemma GoneAfterTwo(s: Store, t: Store, size: nat, c: nat, c': nat, epochSize: nat, i: nat)
    requires Shape(s, size) && Shape(t, size) && i < size
    requires TurnsOver(s, size, c, epochSize) && TurnsOver(t, size, c', epochSize)
    requires var s' := Aged(s, size, c, epochSize); t.epochs[i] == s'.epochs[i] && t.collected[i] == s'.collected[i]
    ensures Aged(t, size, c', epochSize).collected[i]
  {
    TurnoverFreesOld(s, size, c, epochSize);
    TurnoverFreesOld(t, size, c', epochSize);
  }

  const INVALID := 0xffff_ffff

  class Cache {
    const hash: HashFunction
    var table: seq<Element>
    var size: Limb
    var collected: seq<bool>
    var epochs: seq<bool>
    var counter: nat
    var epochSize: nat
    var depthLimit: nat

    ghost function Now(): (s: Store)
      reads this
    {
      Store(table, collected, epochs)
    }

    ghost predicate Valid()
      reads this
    {
      && Shape(Now(), size)
      && Located(Now(), hash, size)
      && Unique(table)
      && Budget(Now(), size, counter, epochSize)
      && depthLimit >= 1
    }

    // An empty cache; depth is the logarithm of the size, at least one.
    constructor Setup(newSize: Limb, hash: HashFunction, depth: nat)
      requires depth >= 1
      ensures Valid() && this.hash == hash && size == Max(2, newSize) && depthLimit == depth
      ensures epochSize == Max(1, 45 * size % BASE / 100) && counter == epochSize
      ensures forall i :: 0 <= i < size ==> table[i] == EMPTY && collected[i] && !epochs[i]
      ensures Kept(Now(), size) == multiset{}
    {
      this.hash := hash;
      var n := Max(2, newSize);
      size := n;
      depthLimit := depth;
      table := seq(n, _ => EMPTY);
      collected := seq(n, _ => true);
      epochs := seq(n, _ => false);
      epochSize := Max(1, 45 * n % BASE / 100);
      counter := Max(1, 45 * n % BASE / 100);
      new;
      NothingKept(Now(), size);
      NoneYoung(Now(), size);
      OnlyFiller(table);
      assert forall i: nat | i < size :: SlotOk(Now(), hash, size, i);
    }

    // Ages the entries when the cheap counter has run out and the current generation is full.
    method EpochCheck()
      requires Valid()
      modifies `collected, `epochs, `counter
      ensures Now() == old(Aged(Now(), size, counter, epochSize))
      ensures counter == old(NextCounter(Now(), size, counter, epochSize))
    {
      hide Located, Unique;
      if counter != 0 {
        counter := counter - 1;
        return;
      }
      var unused := 0;
      for i := 0 to size
        invariant unused == Young(Now(), i)
        invariant unchanged(this)
      {
        unused := unused + if epochs[i] && !collected[i] then 1 else 0;
      }
      if unused >= epochSize {
        for i := 0 to size
          invariant |epochs| == size && |collected| == size
          invariant forall j :: 0 <= j < i ==> !epochs[j] && collected[j] == (old(collected)[j] || !old(epochs)[j])
          invariant forall j :: i <= j < size ==> epochs[j] == old(epochs)[j] && collected[j] == old(collected)[j]
        {
          if epochs[i] {
            epochs := epochs[i := false];
          } else {
            collected := collected[i := true];
          }
        }
        counter := epochSize;
        ghost var aged := old(Aged(Now(), size, counter, epochSize));
        assert epochs == aged.epochs && collected == aged.collected;
      } else {
        counter := Max(1, Max(epochSize / 16, epochSize - unused));
      }
    }

    // The first of e's locations that holds it.
    method Lookup(e: Element) returns (found: bool, loc: Limb)
      requires Shape(Now(), size)
      ensures var locs := Locs(hash, e, size); var k := FirstHolding(locs, table, e);
              found == (k < 8) && (found ==> loc == locs[k])
      ensures found ==> loc < size && table[loc] == e && loc in Locs(hash, e, size)
    {
      hide Locs;
      var locs := Locs(hash, e, size);
      for k := 0 to 8
        invariant FirstHolding(locs, table, e) == FirstHolding(locs, table, e, k)
      {
        if table[locs[k]] == e {
          return true, locs[k];
        }
      }
      return false, 0;
    }

    // Looks e up; erasing only marks its slot.
    method Contains(e: Element, erase: bool) returns (r: bool)
      requires Valid()
      modifies `collected
      ensures Valid()
      ensures var locs := Locs(hash, e, size); var k := FirstHolding(locs, table, e);
              r == (k < 8) && collected == if r && erase then old(collected)[locs[k] := true] else old(collected)
      ensures e != EMPTY ==> (r <==> e in table)
    {
      hide Located, Unique, Locs, FirstHolding, Put;
      if e != EMPTY {
        NotHeld(Now(), hash, size, e);
      }
      var loc;
      r, loc := Lookup(e);
      if r && erase {
        MarkKeeps(Now(), hash, size, loc, counter, epochSize);
        collected := collected[loc := true];
      }
    }

    // Stores e; `out` says how the contents changed.
    method Insert(e: Element) returns (ghost out: Outcome)
      requires Valid()
      modifies `table, `collected, `epochs, `counter
      ensures Valid() && counter == old(NextCounter(Now(), size, counter, epochSize))
      ensures var aged := old(Aged(Now(), size, counter, epochSize));
              var locs := Locs(hash, e, size); var k := FirstHolding(locs, aged.table, e);
              if k < 8 then Now() == Put(aged, locs[k], e, true, false)
              else
                && out == Displace(hash, size, aged, e, true, INVALID, depthLimit)
                && Now() == out.store && Conserves(aged, e, true, out, size)
    {
      hide Located, Unique, Locs, Displace, Budget, Kept, Young, Conserves, Aged, NextCounter, Put;
      CheckLeavesRoom(Now(), hash, size, counter, epochSize);
      EpochCheck();
      ghost var aged := Now();
      var known := Renew(e);
      if known {
        return Outcome(aged, e, true, true);
      }
      out := Displace(hash, size, aged, e, true, INVALID, depthLimit);
      DisplaceConserves(hash, size, aged, e, true, INVALID, depthLimit);
      StaysUnique(aged, hash, size, e, true, out);
      StaysInBudget(aged, e, out, size, counter, epochSize);
      Place(e);
    }

    // An element that is already stored is kept and counts as new.
    method Renew(e: Element) returns (known: bool)
      requires Shape(Now(), size) && Located(Now(), hash, size) && epochSize >= 1
      requires Young(Now(), size) + 1 + counter <= epochSize + Max(1, epochSize / 16)
      modifies `collected, `epochs
      ensures known <==> FirstHolding(Locs(hash, e, size), table, e) < 8
      ensures !known ==> unchanged(this)
      ensures known ==> Shape(Now(), size) && Located(Now(), hash, size) && Budget(Now(), size, counter, epochSize)
      ensures known ==>
                Now() ==
                old(Put(Now(), Locs(hash, e, size)[FirstHolding(Locs(hash, e, size), table, e)], e, true, false))
    {
      hide Located, Locs, Budget, Young, Put, FirstHolding, Max;
      var loc;
      known, loc := Lookup(e);
      if known {
        KeepIt(Now(), hash, size, loc, counter, epochSize);
        collected := collected[loc := false];
        epochs := epochs[loc := true];
      }
    }

    // The eviction chain.
    method Place(e: Element)
      requires Shape(Now(), size)
      modifies `table, `collected, `epochs
      ensures Now() == old(Displace(hash, size, Now(), e, true, INVALID, depthLimit)).store
    {
      hide Locs, Displace;
      var inHand := e;
      var lastLoc: nat := INVALID;
      var lastEpoch := true;
      var locs := Locs(hash, e, size);
      ghost var out := Displace(hash, size, Now(), e, true, INVALID, depthLimit);
      for depth := 0 to depthLimit
        invariant Shape(Now(), size) && |locs| == 8 && locs == Locs(hash, inHand, size)
        invariant out == Displace(hash, size, Now(), inHand, lastEpoch, lastLoc, depthLimit - depth)
      {
        DisplaceUnfold(hash, size, Now(), inHand, lastEpoch, lastLoc, depthLimit - depth);
        var k := 0;
        while k < 8
          invariant 0 <= k <= 8
          invariant FirstFree(locs, collected) == FirstFree(locs, collected, k)
        {
          var loc := locs[k];
          if collected[loc] {
            table := table[loc := inHand];
            collected := collected[loc := false];
            epochs := epochs[loc := lastEpoch];
            return;
          }
          k := k + 1;
        }
        lastLoc := NextLoc(locs, lastLoc);
        var evicted := table[lastLoc];
        table := table[lastLoc := inHand];
        inHand := evicted;
        var epoch := lastEpoch;
        lastEpoch := epochs[lastLoc];
        epochs := epochs[lastLoc := epoch];
        assert collected[lastLoc := collected[lastLoc]] == collected;
        locs := Locs(hash, inHand, size);
      }
      DisplaceUnfold(hash, size, Now(), inHand, lastEpoch, lastLoc, 0);
    }
  }

  // Erasing is lazy: an element just inserted and then erased is still found, until its slot
  // is needed.
  method InsertThenErase(c: Cache, e: Element) returns (r: bool)
    requires c.Valid()
    modifies c
    ensures r && c.Valid()
  {
    ghost var _ := c.Insert(e);
    var there := c.Contains(e, true);
    if there {
      r := c.Contains(e, false);
    } else {
      r := true;
    }
  }

  datatype Op = InsertOp(e: Element) | ContainsOp(e: Element, erase: bool)

  // Any use of a fresh cache: an element other than the filler is never stored twice, it is
  // found exactly when it is stored, and the current generation never outgrows its size by
  // more than a sixteenth.
  method Replay(newSize: Limb, hash: HashFunction, depth: nat, ops: seq<Op>) returns (c: Cache)
    requires depth >= 1
    ensures fresh(c) && c.Valid() && c.size == Max(2, newSize)
    ensures Young(c.Now(), c.size) <= c.epochSize + Max(1, c.epochSize / 16)
    ensures forall i, j :: 0 <= i < j < |c.table| && c.table[i] == c.table[j] ==> c.table[i] == EMPTY
    ensures forall e :: e != EMPTY ==> (e in c.table <==> FirstHolding(Locs(hash, e, c.size), c.table, e) < 8)
  {
    hide Unique, Located, Locs;
    c := new Cache.Setup(newSize, hash, depth);
    for i := 0 to |ops|
      invariant c.Valid() && c.hash == hash && c.size == Max(2, newSize)
    {
      match ops[i] {
        case InsertOp(e) => ghost var _ := c.Insert(e);
        case ContainsOp(e, erase) => var _ := c.Contains(e, erase);
      }
    }
    UniqueSlots(c.table);
    forall e | e != EMPTY ensures e in c.table <==> FirstHolding(Locs(hash, e, c.size), c.table, e) < 8 {
      NotHeld(c.Now(), hash, c.size, e);
    }
  }

  lemma UniqueSlots(t: seq<Element>)
    requires Unique(t)
    ensures forall i, j :: 0 <= i < j < |t| && t[i] == t[j] ==> t[i] == EMPTY
  {
    forall i, j | 0 <= i < j < |t| && t[i] == t[j] ensures t[i] == EMPTY {
      assert t == t[..j] + t[j..];
      assert t[i] in t[..j] && t[j] in t[j..];
      assert multiset(t) == multiset(t[..j]) + multiset(t[j..]);
      assert t[i] in multiset(t[..j]) && t[j] in multiset(t[j..]);
      assert multiset(t)[t[i]] >= 2;
    }
  }

  // ---- which slot is evicted ----

  // A first eviction takes the second location.
  lemma FirstEviction(h: HashFunction, e: Element, size: Limb)
    requires size > 0
    ensures NextLoc(Locs(h, e, size), INVALID) == Locs(h, e, size)[1]
  {
    hide Locs;
  }

  // A chain of several rounds is its first round and then the rest.
  lemma RoundByRound(h: HashFunction, size: Limb, s: Store, e: Element, epoch: bool, last: nat, depth: nat)
    requires Shape(s, size) && depth >= 1
    ensures var locs := Locs(h, e, size);
            var first := Displace(h, size, s, e, epoch, last, 1);
            && Shape(first.store, size)
            && Displace(h, size, s, e, epoch, last, depth) ==
               if first.garbage then first
               else Displace(h, size, first.store, first.dropped, first.droppedEpoch, NextLoc(locs, last), depth - 1)
  {
    hide Locs, Displace;
    DisplaceUnfold(h, size, s, e, epoch, last, depth);
    DisplaceUnfold(h, size, s, e, epoch, last, 1);
    var locs := Locs(h, e, size);
    if FirstFree(locs, s.collected) == 8 {
      var i := NextLoc(locs, last);
      DisplaceUnfold(h, size, Put(s, i, e, epoch, s.collected[i]), s.table[i], s.epochs[i], i, 0);
    }
  }

  // An entry was put into slot i, evicting x, whose k-th location is i.  The next round leaves
  // that entry alone exactly when there is no next round, x has a free location, or the
  // location of x after the k-th is another slot.
  lemma LeavesPlacedAlone(h: HashFunction, size: Limb, s: Store, x: Element, epoch: bool, i: nat, k: nat, depth: nat)
    requires Shape(s, size) && i < size && !s.collected[i] && s.table[i] != x
    requires var locs := Locs(h, x, size); k < 8 && locs[k] == i && i !in locs[..k]
    ensures var locs := Locs(h, x, size);
            var next := Displace(h, size, s, x, epoch, i, if depth == 0 then 0 else 1);
            next.store.table[i] == s.table[i] <==>
            depth == 0 || (exists j :: 0 <= j < 8 && s.collected[locs[j]]) || locs[(k + 1) % 8] != i
  {
    hide Locs, Displace;
    var locs := Locs(h, x, size);
    assert forall j :: 0 <= j < k ==> locs[..k][j] == locs[j] != i;
    assert Find(locs, i) == k;
    DisplaceUnfold(h, size, s, x, epoch, i, 0);
    DisplaceUnfold(h, size, s, x, epoch, i, 1);
    if FirstFree(locs, s.collected) == 8 {
      var n := NextLoc(locs, i);
      DisplaceUnfold(h, size, Put(s, n, x, epoch, s.collected[n]), s.table[n], s.epochs[n], n, 0);
    }
  }

  // With an all-zero hash every element has only slot 0.
  function AllZero(k: nat, e: Element): Limb {
    0
  }

  lemma OneSlot(e: Element)
    ensures forall k :: 0 <= k < 8 ==> Locs(AllZero, e, 4)[k] == 0
  {
    assert FastRange32(0, 4) == 0;
  }

  // A cache of four slots used from the start: the second insertion puts e into slot 0 and
  // then takes it out again for the element it had evicted.
  method PlacedIsTakenOut(x: Element, e: Element) returns (c: Cache, ghost before: Store)
    requires x != EMPTY && e != EMPTY && x != e
    ensures fresh(c) && c.Valid() && c.hash == AllZero && c.size == 4 && c.depthLimit == 2
    ensures Shape(before, 4) && Located(before, AllZero, 4)
    ensures Displace(AllZero, 4, before, e, true, INVALID, 1).store.table[0] == e
    ensures c.Now() == Displace(AllZero, 4, before, e, true, INVALID, 2).store
    ensures c.table[0] == x && e !in c.table
  {
    hide Locs, Displace, Located, Unique, Conserves, Kept, Budget, FirstHolding, Young, Aged, NextCounter, Put;
    c := new Cache.Setup(4, AllZero, 2);
    Counted(c.Now(), c.epochSize);
    Fresh4(c.Now(), x);
    ghost var _ := c.Insert(x);
    assert c.Now() == OneStored(x, true) && c.counter == 0 && c.epochSize == 1;
    Aged4(x);
    Occupied4(x, e);
    CheckLeavesRoom(c.Now(), AllZero, 4, c.counter, c.epochSize);
    before := Aged(c.Now(), 4, c.counter, c.epochSize);
    ghost var _ := c.Insert(e);
  }

  // Four slots, the first of them holding x.
  ghost function OneStored(x: Element, epoch: bool): (s: Store)
    ensures Shape(s, 4)
  {
    Store([x, EMPTY, EMPTY, EMPTY], [false, true, true, true], [epoch, false, false, false])
  }

  // A positive counter is only counted down.
  lemma Counted(s: Store, counter: nat)
    requires Shape(s, 4) && counter > 0
    ensures Aged(s, 4, counter, 1) == s && NextCounter(s, 4, counter, 1) == counter - 1
  {}

  // The first insertion into four free slots.
  lemma Fresh4(s: Store, x: Element)
    requires Shape(s, 4) && x != EMPTY
    requires forall i :: 0 <= i < 4 ==> s.table[i] == EMPTY && s.collected[i] && !s.epochs[i]
    ensures FirstHolding(Locs(AllZero, x, 4), s.table, x) == 8
    ensures Displace(AllZero, 4, s, x, true, INVALID, 2).store == OneStored(x, true)
  {
    hide Locs, Displace;
    OneSlot(x);
    DisplaceUnfold(AllZero, 4, s, x, true, INVALID, 2);
    assert FirstFree(Locs(AllZero, x, 4), s.collected) == 0;
  }

  lemma Aged4(x: Element)
    ensures Aged(OneStored(x, true), 4, 0, 1) == OneStored(x, false)
  {
    var s := OneStored(x, true);
    assert Young(s, 0) == 0 && Young(s, 1) == 1;
    assert Young(s, 2) == 1 && Young(s, 3) == 1 && Young(s, 4) == 1;
  }

  // One round on the only location there is.
  lemma Swap4(x: Element, epoch: bool, e: Element, inHand: bool, last: nat, depth: nat)
    ensures Displace(AllZero, 4, OneStored(x, epoch), e, inHand, last, depth + 1) ==
            Displace(AllZero, 4, OneStored(e, inHand), x, epoch, 0, depth)
  {
    hide Locs, Displace;
    var s := OneStored(x, epoch);
    OneSlot(e);
    assert FirstFree(Locs(AllZero, e, 4), s.collected) == 8;
    DisplaceUnfold(AllZero, 4, s, e, inHand, last, depth + 1);
    assert Put(s, 0, e, inHand, false) == OneStored(e, inHand);
  }

  // The second insertion, with the entry of the first aged.
  lemma Occupied4(x: Element, e: Element)
    requires x != EMPTY && e != EMPTY && x != e
    ensures FirstHolding(Locs(AllZero, e, 4), OneStored(x, false).table, e) == 8
    ensures Displace(AllZero, 4, OneStored(x, false), e, true, INVALID, 1).store == OneStored(e, true)
    ensures Displace(AllZero, 4, OneStored(x, false), e, true, INVALID, 2).store == OneStored(x, false)
  {
    hide Locs, Displace;
    OneSlot(e);
    Swap4(x, false, e, true, INVALID, 0);
    Swap4(x, false, e, true, INVALID, 1);
    Swap4(e, true, x, false, 0, 0);
    DisplaceUnfold(AllZero, 4, OneStored(e, true), x, false, 0, 0);
    DisplaceUnfold(AllZero, 4, OneStored(x, false), e, true, 0, 0);
  }

  lemma {:induction false} NothingKept(s: Store, n: nat)
    requires n <= |s.table| == |s.collected| == |s.epochs| && forall i :: 0 <= i < n ==> s.collected[i]
    ensures Kept(s, n) == multiset{}
  {
    if n > 0 {
      NothingKept(s, n - 1);
    }
  }

  lemma OnlyFiller(t: seq<Element>)
    requires forall i :: 0 <= i < |t| ==> t[i] == EMPTY
    ensures Unique(t)
  {
    forall x: Element | x != EMPTY ensures multiset(t)[x] <= 1 {
      assert x !in t;
      assert x !in multiset(t);
    }
  }

  // Marking an entry collectable.
  lemma MarkKeeps(s: Store, h: HashFunction, size: Limb, i: nat, counter: nat, epochSize: nat)
    requires Shape(s, size) && Located(s, h, size) && i < size && Budget(s, size, counter, epochSize)
    ensures var s' := Store(s.table, s.collected[i := true], s.epochs);
            Shape(s', size) && Located(s', h, size) && Budget(s', size, counter, epochSize)
  {
    hide Locs;
    var s' := Store(s.table, s.collected[i := true], s.epochs);
    forall j: nat | j < size ensures SlotOk(s', h, size, j) {
      assert SlotOk(s, h, size, j);
    }
    assert Put(s, i, s.table[i], s.epochs[i], true) == s';
    YoungPut(s, i, s.table[i], s.epochs[i], true, size);
  }

  // Renewing an entry that is already there.
  lemma KeepIt(s: Store, h: HashFunction, size: Limb, i: nat, counter: nat, epochSize: nat)
    requires Shape(s, size) && Located(s, h, size) && i < size && i in Locs(h, s.table[i], size)
    requires epochSize >= 1 && Young(s, size) + 1 + counter <= epochSize + Max(1, epochSize / 16)
    ensures var s' := Store(s.table, s.collected[i := false], s.epochs[i := true]);
            s' == Put(s, i, s.table[i], true, false) && Located(s', h, size) && Budget(s', size, counter, epochSize)
  {
    hide Locs, Located;
    assert s.table[i := s.table[i]] == s.table;
    LocatedPut(s, h, size, i, s.table[i], true, false);
    YoungPut(s, i, s.table[i], true, false, size);
  }

  lemma StaysInBudget(s: Store, e: Element, r: Outcome, size: Limb, counter: nat, epochSize: nat)
    requires Shape(s, size) && Conserves(s, e, true, r, size) && epochSize >= 1
    requires Young(s, size) + 1 + counter <= epochSize + Max(1, epochSize / 16)
    ensures Shape(r.store, size) && Budget(r.store, size, counter, epochSize)
  {
    hide Young, Kept;
  }

  lemma DisplaceUnfold(h: HashFunction, size: Limb, s: Store, e: Element, epoch: bool, last: nat, depth: nat)
    requires Shape(s, size)
    ensures var r := Displace(h, size, s, e, epoch, last, depth);
            if depth == 0 then r == Outcome(s, e, epoch, false)
            else
              var locs := Locs(h, e, size);
              var k := FirstFree(locs, s.collected);
              if k < 8 then r == Outcome(Put(s, locs[k], e, epoch, false), s.table[locs[k]], s.epochs[locs[k]], true)
              else
                var i := NextLoc(locs, last);
                r == Displace(h, size, Put(s, i, e, epoch, s.collected[i]), s.table[i], s.epochs[i], i, depth - 1)
  {
    hide Locs;
  }
}
