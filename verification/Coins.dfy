/** The UTXO cache hierarchy: layered write-back caches over a coin database.

    A `CoinsCache` keeps DIRTY/FRESH entries over a base that is either another
    cache or the database.  Every layer shows one plain map from outpoints to
    unspent coins, `Visible()`; everything below is stated on that map. */
module Coins {
  import opened Basics

  datatype OutPoint = OutPoint(hash: nat, n: nat)

  // A block hash; zero stands for none.
  type Hash = nat

  const NO_BLOCK: Hash := 0

  datatype TxOut = TxOut(nValue: int, scriptPubKey: seq<Byte>)

  const OP_RETURN: Byte := 0x6a
  const MAX_SCRIPT_SIZE := 10000
  const DIRECT_SCRIPT_SIZE := 28

  predicate IsUnspendable(script: seq<Byte>) {
    (|script| > 0 && script[0] == OP_RETURN) || |script| > MAX_SCRIPT_SIZE
  }

  // Heap bytes charged for an allocation of a given size (64-bit platforms).
  function MallocUsage(alloc: nat): nat {
    if alloc == 0 then 0 else (alloc + 31) / 16 * 16
  }

  // The least multiple of 16 that leaves 16 bytes for the allocator.
  lemma MallocRoundsUp(alloc: nat)
    ensures MallocUsage(0) == 0
    ensures alloc > 0 ==> MallocUsage(alloc) % 16 == 0 && alloc + 16 <= MallocUsage(alloc) < alloc + 32
  {}

  // Scripts of up to 28 bytes cost nothing, longer ones their allocation.
  lemma ScriptUsage(coin: Coin)
    ensures var n := |coin.out.scriptPubKey|;
            coin.DynamicMemoryUsage() == if n <= 28 then 0 else MallocUsage(n)
  {}

  // Data carriers and scripts that can never be run.
  lemma UnspendableExactly(script: seq<Byte>)
    ensures IsUnspendable(script) <==> |script| > 10000 || [0x6a] <= script
  {
    assert |script| > 0 ==> ([0x6a] <= script <==> script[..1] == [0x6a]);
  }

  datatype Coin = Coin(out: TxOut, fCoinBase: bool, nHeight: nat) {
    predicate IsSpent() { out.nValue == -1 }

    // Scripts of up to 28 bytes are stored inline and cost no heap memory.
    function DynamicMemoryUsage(): nat {
      MallocUsage(if |out.scriptPubKey| <= DIRECT_SCRIPT_SIZE then 0 else |out.scriptPubKey|)
    }
  }

  const COIN_EMPTY := Coin(TxOut(-1, []), false, 0)

  datatype Entry = Entry(coin: Coin, isDirty: bool, isFresh: bool)

  type CoinsMap = map<OutPoint, Entry>

  // A plain view: the unspent coins and nothing else.
  type Utxo = map<OutPoint, Coin>

  ghost predicate NoSpent(m: Utxo) {
    forall o :: o in m ==> !m[o].IsSpent()
  }

  // What a cache shows when laid over the map its parent shows.
  ghost function Overlay(cache: CoinsMap, parent: Utxo): (m: Utxo) {
    map o | o in cache.Keys + parent.Keys && (o in cache ==> !cache[o].coin.IsSpent())
      :: if o in cache then cache[o].coin else parent[o]
  }

  // The five combinations of flags and spentness that may occur.
  predicate LegalState(e: Entry) {
    || (!e.coin.IsSpent() && e.isFresh && e.isDirty)
    || (!e.coin.IsSpent() && !e.isFresh && e.isDirty)
    || (!e.coin.IsSpent() && !e.isFresh && !e.isDirty)
    || (e.coin.IsSpent() && e.isFresh && !e.isDirty)
    || (e.coin.IsSpent() && !e.isFresh && e.isDirty)
  }

  // FRESH: the parent shows no coin.  Not DIRTY: the entry is what the parent shows.
  ghost predicate EntryOk(o: OutPoint, e: Entry, parent: Utxo) {
    && LegalState(e)
    && (e.coin.IsSpent() ==> e.coin == COIN_EMPTY)
    && (e.isFresh ==> o !in parent)
    && (!e.isDirty && !e.coin.IsSpent() ==> o in parent && parent[o] == e.coin)
    && (!e.isDirty && e.coin.IsSpent() ==> o !in parent)
  }

  ghost predicate CacheOk(cache: CoinsMap, parent: Utxo) {
    forall o :: o in cache ==> EntryOk(o, cache[o], parent)
  }

  // Memory usage summed over all entries.
  ghost function UsageSum(cache: CoinsMap): nat
    decreases |cache|
  {
    if cache == map[] then 0 else
      var o :| o in cache;
      assert |cache - {o}| < |cache| by { CardinalityRemove(cache, o); }
      cache[o].coin.DynamicMemoryUsage() + UsageSum(cache - {o})
  }

  lemma CardinalityRemove(cache: CoinsMap, o: OutPoint)
    requires o in cache
    ensures |cache - {o}| == |cache| - 1
  {
    assert (cache - {o}).Keys == cache.Keys - {o};
  }

  // The sum does not depend on the order in which entries are visited.
  lemma {:induction false} UsageRemove(cache: CoinsMap, o: OutPoint)
    requires o in cache
    ensures UsageSum(cache) == cache[o].coin.DynamicMemoryUsage() + UsageSum(cache - {o})
    decreases |cache|
  {
    var p :| p in cache && UsageSum(cache) == cache[p].coin.DynamicMemoryUsage() + UsageSum(cache - {p});
    if p != o {
      CardinalityRemove(cache, p);
      CardinalityRemove(cache, o);
      UsageRemove(cache - {p}, o);
      UsageRemove(cache - {o}, p);
      assert cache - {p} - {o} == cache - {o} - {p};
    }
  }

  lemma UsageSet(cache: CoinsMap, o: OutPoint, e: Entry)
    ensures UsageSum(cache[o := e]) ==
            UsageSum(cache) + e.coin.DynamicMemoryUsage()
            - (if o in cache then cache[o].coin.DynamicMemoryUsage() else 0)
  {
    UsageRemove(cache[o := e], o);
    if o in cache {
      UsageRemove(cache, o);
      assert cache[o := e] - {o} == cache - {o};
    } else {
      assert cache[o := e] - {o} == cache;
    }
  }

  // Replacing one entry changes what is shown at that outpoint only.
  lemma OverlaySet(cache: CoinsMap, o: OutPoint, e: Entry, parent: Utxo)
    ensures Overlay(cache[o := e], parent) ==
            if e.coin.IsSpent() then Overlay(cache, parent) - {o} else Overlay(cache, parent)[o := e.coin]
  {}

  // Dropping an entry that agrees with the parent changes nothing.
  lemma OverlayErase(cache: CoinsMap, o: OutPoint, parent: Utxo)
    requires o in cache
    ensures o !in parent ==> Overlay(cache - {o}, parent) == Overlay(cache, parent) - {o}
    ensures o !in parent && cache[o].coin.IsSpent() ==> Overlay(cache - {o}, parent) == Overlay(cache, parent)
    ensures o in parent && !cache[o].coin.IsSpent() && parent[o] == cache[o].coin
            ==> Overlay(cache - {o}, parent) == Overlay(cache, parent)
  {}

  // `todo` is the part of `mapCoins` a traversal has not visited yet.
  ghost predicate Remaining(mapCoins: CoinsMap, todo: CoinsMap) {
    forall o :: o in todo ==> o in mapCoins && mapCoins[o] == todo[o]
  }

  lemma TakeOne(mapCoins: CoinsMap, todo: CoinsMap, o: OutPoint)
    requires Remaining(mapCoins, todo) && o in todo
    ensures Remaining(mapCoins, todo - {o})
    ensures mapCoins - (todo - {o}).Keys == (mapCoins - todo.Keys)[o := todo[o]]
  {}

  lemma CacheOkSet(cache: CoinsMap, o: OutPoint, e: Entry, parent: Utxo)
    requires CacheOk(cache, parent) && EntryOk(o, e, parent)
    ensures CacheOk(cache[o := e], parent)
  {
    hide EntryOk;
  }

  // What the view shows at one outpoint.
  lemma CachedCoin(cache: CoinsMap, parent: Utxo, o: OutPoint)
    requires CacheOk(cache, parent)
    ensures o in cache ==> (o in Overlay(cache, parent) <==> !cache[o].coin.IsSpent())
    ensures o in cache && o in Overlay(cache, parent) ==> Overlay(cache, parent)[o] == cache[o].coin
    ensures o in cache && o !in Overlay(cache, parent) ==> cache[o].coin == COIN_EMPTY
    ensures o !in cache ==> (o in Overlay(cache, parent) <==> o in parent)
    ensures o !in cache && o in parent ==> Overlay(cache, parent)[o] == parent[o]
  {}

  lemma CacheOkParent(cache: CoinsMap, parent: Utxo)
    requires CacheOk(cache, parent) && NoSpent(parent)
    ensures NoSpent(Overlay(cache, parent))
  {}

  // What is on disk: the coins, the block they belong to, and during a transition
  // the blocks it leads to and from.
  datatype Disk = Disk(coins: Utxo, bestBlock: Hash, headBlocks: Option<(Hash, Hash)>)

  datatype Write =
    | PutCoin(o: OutPoint, coin: Coin)
    | EraseCoin(o: OutPoint)
    | PutBestBlock(hash: Hash)
    | EraseBestBlock
    | PutHeadBlocks(to: Hash, from: Hash)
    | EraseHeadBlocks

  function Written(d: Disk, w: Write): Disk {
    match w
    case PutCoin(o, coin) => d.(coins := d.coins[o := coin])
    case EraseCoin(o) => d.(coins := d.coins - {o})
    case PutBestBlock(hash) => d.(bestBlock := hash)
    case EraseBestBlock => d.(bestBlock := NO_BLOCK)
    case PutHeadBlocks(to, from) => d.(headBlocks := Some((to, from)))
    case EraseHeadBlocks => d.(headBlocks := None)
  }

  // A batch takes effect as a whole.
  function AllWritten(d: Disk, batch: seq<Write>): Disk {
    if batch == [] then d else Written(AllWritten(d, batch[..|batch| - 1]), batch[|batch| - 1])
  }

  lemma WrittenNext(d: Disk, batch: seq<Write>, w: Write)
    ensures AllWritten(d, batch + [w]) == Written(AllWritten(d, batch), w)
  {
    assert (batch + [w])[..|batch|] == batch;
  }

  predicate SameAt(m: Utxo, n: Utxo, o: OutPoint) {
    (o in m <==> o in n) && (o in m ==> m[o] == n[o])
  }

  // Every outpoint is as in one of the two maps.
  ghost predicate Mixed(m: Utxo, a: Utxo, b: Utxo) {
    forall o :: SameAt(m, a, o) || SameAt(m, b, o)
  }

  // On disk in the middle of a transition between two blocks and their coins.
  ghost predicate OnTheWay(d: Disk, to: Hash, from: Hash, a: Utxo, b: Utxo) {
    d.bestBlock == NO_BLOCK && d.headBlocks == Some((to, from)) && Mixed(d.coins, a, b)
  }

  lemma PartIsMixed(mapCoins: CoinsMap, part: CoinsMap, parent: Utxo)
    requires Remaining(mapCoins, part)
    ensures Mixed(Overlay(part, parent), parent, Overlay(mapCoins, parent))
  {}

  /** The coin database at the bottom of every stack. */
  class CoinsDb {
    var coins: Utxo
    var bestBlock: Hash
    var headBlocks: Option<(Hash, Hash)>

    ghost var log: seq<Disk>  // what was on disk after each batch

    constructor ()
      ensures coins == map[] && bestBlock == NO_BLOCK && headBlocks == None && log == []
    {
      log := [];
      coins := map[];
      bestBlock := NO_BLOCK;
      headBlocks := None;
    }

    ghost function OnDisk(): Disk
      reads this
    {
      Disk(coins, bestBlock, headBlocks)
    }

    method GetCoin(o: OutPoint) returns (r: Option<Coin>)
      ensures r == if o in coins then Some(coins[o]) else None
    {
      r := if o in coins then Some(coins[o]) else None;
    }

    // The block a transition to `hashBlock` starts from; an interrupted one is resumed.
    function OldTip(): Hash
      reads this
    {
      if bestBlock == NO_BLOCK && headBlocks.Some? then headBlocks.value.1 else bestBlock
    }

    // What the asserts of BatchWrite demand.
    predicate CanAdvance(hashBlock: Hash)
      reads this
    {
      hashBlock != NO_BLOCK && (bestBlock == NO_BLOCK && headBlocks.Some? ==> headBlocks.value.0 == hashBlock)
    }

    method WriteBatch(batch: seq<Write>)
      modifies this
      ensures OnDisk() == AllWritten(old(OnDisk()), batch) && log == old(log) + [OnDisk()]
    {
      var d := AllWritten(Disk(coins, bestBlock, headBlocks), batch);
      coins, bestBlock, headBlocks := d.coins, d.bestBlock, d.headBlocks;
      log := log + [OnDisk()];
    }

    // Batches are cut anywhere; `cuts` is what is on disk after each of them but the last, where
    // a crash may leave it: marked as being on the way, every coin either old or new.
    method BatchWrite(mapCoins: CoinsMap, hashBlock: Hash, erase: bool) returns (rest: CoinsMap, ghost cuts: seq<Disk>)
      requires CacheOk(mapCoins, coins) && CanAdvance(hashBlock)
      modifies this
      ensures OnDisk() == Disk(Overlay(mapCoins, old(coins)), hashBlock, None)
      ensures rest == if erase then map[] else mapCoins
      ensures log == old(log) + cuts + [OnDisk()]
      ensures forall k :: 0 <= k < |cuts| ==> OnTheWay(cuts[k], hashBlock, old(OldTip()), old(coins), coins)
    {
      hide Overlay, AllWritten, Mixed, CacheOk;
      assert hashBlock != NO_BLOCK;  // asserted by the source
      if bestBlock == NO_BLOCK && headBlocks.Some? {
        assert headBlocks.value.0 == hashBlock;  // asserted by the source
      }
      var batch := [EraseBestBlock, PutHeadBlocks(hashBlock, OldTip())];
      BatchStart(OnDisk(), hashBlock, OldTip(), mapCoins);
      var todo := mapCoins;
      cuts := [];
      while todo != map[]
        invariant Remaining(mapCoins, todo) && log == old(log) + cuts
        invariant AllWritten(OnDisk(), batch) ==
                  Disk(Overlay(mapCoins - todo.Keys, old(coins)), NO_BLOCK, Some((hashBlock, old(OldTip()))))
        invariant forall k :: 0 <= k < |cuts| ==>
                    OnTheWay(cuts[k], hashBlock, old(OldTip()), old(coins), Overlay(mapCoins, old(coins)))
        decreases todo.Keys
      {
        var o :| o in todo;
        var e := todo[o];
        BatchNext(OnDisk(), batch, mapCoins, todo, o, old(coins), hashBlock, old(OldTip()));
        if e.isDirty {
          batch := batch + [if e.coin.IsSpent() then EraseCoin(o) else PutCoin(o, e.coin)];
        }
        todo := todo - {o};
        if * {
          WriteBatch(batch);
          batch := [];
          cuts := cuts + [OnDisk()];
          PartIsMixed(mapCoins, mapCoins - todo.Keys, old(coins));
          NothingWritten(OnDisk());
        }
      }
      assert mapCoins - todo.Keys == mapCoins;
      WrittenNext(OnDisk(), batch, EraseHeadBlocks);
      WrittenNext(OnDisk(), batch + [EraseHeadBlocks], PutBestBlock(hashBlock));
      WriteBatch(batch + [EraseHeadBlocks] + [PutBestBlock(hashBlock)]);
      rest := if erase then todo else mapCoins;
    }
  }

  lemma NothingWritten(d: Disk)
    ensures AllWritten(d, []) == d
  {}

  lemma BatchStart(d: Disk, to: Hash, from: Hash, mapCoins: CoinsMap)
    ensures AllWritten(d, [EraseBestBlock, PutHeadBlocks(to, from)]) ==
            Disk(Overlay(mapCoins - mapCoins.Keys, d.coins), NO_BLOCK, Some((to, from)))
  {
    NothingWritten(d);
    WrittenNext(d, [], EraseBestBlock);
    WrittenNext(d, [EraseBestBlock], PutHeadBlocks(to, from));
    assert [EraseBestBlock] + [PutHeadBlocks(to, from)] == [EraseBestBlock, PutHeadBlocks(to, from)];
    assert [] + [EraseBestBlock] == [EraseBestBlock];
    assert Overlay(mapCoins - mapCoins.Keys, d.coins) == d.coins;
  }

  // Writing one entry, if it is DIRTY, adds it to the overlay.
  lemma BatchNext(d: Disk, batch: seq<Write>, mapCoins: CoinsMap, todo: CoinsMap, o: OutPoint, coins: Utxo,
                  to: Hash, from: Hash)
    requires Remaining(mapCoins, todo) && o in todo && CacheOk(mapCoins, coins)
    requires AllWritten(d, batch) == Disk(Overlay(mapCoins - todo.Keys, coins), NO_BLOCK, Some((to, from)))
    ensures var e := todo[o];
            var w := if e.coin.IsSpent() then EraseCoin(o) else PutCoin(o, e.coin);
            AllWritten(d, if e.isDirty then batch + [w] else batch) ==
            Disk(Overlay(mapCoins - (todo - {o}).Keys, coins), NO_BLOCK, Some((to, from)))
  {
    hide AllWritten;
    var e := todo[o];
    var w := if e.coin.IsSpent() then EraseCoin(o) else PutCoin(o, e.coin);
    WrittenNext(d, batch, w);
    TakeOne(mapCoins, todo, o);
    OverlaySet(mapCoins - todo.Keys, o, e, coins);
  }

  class CoinsCache {
    const base: CoinsCache?
    const db: CoinsDb
    ghost const Repr: set<object>
    var hashBlock: Hash
    var cacheCoins: CoinsMap
    var cachedCoinsUsage: nat

    // Shape of the stack below this layer; it never changes.
    ghost predicate Structure()
      decreases Repr
    {
      && this in Repr
      && db in Repr
      && if base == null then Repr == {this, db} else
           && base in Repr
           && base.Repr < Repr
           && this !in base.Repr
           && base.db == db
           && base.Structure()
    }

    // What the layer below shows.
    ghost function ParentView(): Utxo
      requires Structure()
      reads Repr
      decreases Repr, 0
    {
      if base == null then db.coins else base.Visible()
    }

    // The coins this layer shows.
    ghost function Visible(): Utxo
      requires Structure()
      reads Repr
      decreases Repr, 1
    {
      Overlay(cacheCoins, ParentView())
    }

    ghost predicate Valid()
      reads Repr
      decreases Repr
    {
      && Structure()
      && NoSpent(db.coins)
      && (base != null ==> base.Valid())
      && CacheOk(cacheCoins, ParentView())
      && cachedCoinsUsage == UsageSum(cacheCoins)
    }

    lemma ParentNoSpent()
      requires Valid()
      ensures NoSpent(ParentView()) && NoSpent(Visible())
      decreases Repr
    {
      if base != null {
        base.ParentNoSpent();
      }
      CacheOkParent(cacheCoins, ParentView());
    }

    // A cache directly over the database.
    constructor OverDb(db: CoinsDb)
      requires NoSpent(db.coins)
      ensures this.db == db && base == null && Repr == {this, db} && hashBlock == NO_BLOCK
      ensures Valid() && Visible() == db.coins && BestBlock() == db.bestBlock
    {
      this.base := null;
      this.db := db;
      Repr := {this, db};
      hashBlock := NO_BLOCK;
      cacheCoins := map[];
      cachedCoinsUsage := 0;
    }

    // A cache over another cache: it shows what its base shows.
    constructor OverCache(base: CoinsCache)
      requires base.Valid()
      ensures this.base == base && db == base.db && Repr == {this} + base.Repr && hashBlock == NO_BLOCK
      ensures Valid() && Visible() == base.Visible() && BestBlock() == base.BestBlock()
    {
      this.base := base;
      db := base.db;
      Repr := {this} + base.Repr;
      hashBlock := NO_BLOCK;
      cacheCoins := map[];
      cachedCoinsUsage := 0;
    }

    // Store an entry, keeping the usage total; the layers below are untouched.
    method PutEntry(o: OutPoint, e: Entry)
      requires Valid() && EntryOk(o, e, ParentView())
      modifies this`cacheCoins, this`cachedCoinsUsage
      ensures Valid() && ParentView() == old(ParentView())
      ensures cacheCoins == old(cacheCoins)[o := e]
      ensures Visible() == if e.coin.IsSpent() then old(Visible()) - {o} else old(Visible())[o := e.coin]
    {
      hide Overlay, CacheOk, EntryOk, UsageSum, NoSpent;
      UsageSet(cacheCoins, o, e);
      OverlaySet(cacheCoins, o, e, ParentView());
      CacheOkSet(cacheCoins, o, e, ParentView());
      if o in cacheCoins {
        UsageRemove(cacheCoins, o);
        cachedCoinsUsage := cachedCoinsUsage - cacheCoins[o].coin.DynamicMemoryUsage();
      }
      cacheCoins := cacheCoins[o := e];
      cachedCoinsUsage := cachedCoinsUsage + e.coin.DynamicMemoryUsage();
      assert base != null ==> base.Valid();
    }

    // Erase an entry, keeping the usage total; the layers below are untouched.
    method EraseEntry(o: OutPoint)
      requires Valid() && o in cacheCoins
      modifies this`cacheCoins, this`cachedCoinsUsage
      ensures Valid() && ParentView() == old(ParentView())
      ensures cacheCoins == old(cacheCoins) - {o}
      ensures o !in ParentView() ==> Visible() == old(Visible()) - {o}
      ensures !old(cacheCoins)[o].isDirty ==> Visible() == old(Visible())
    {
      hide Overlay, UsageSum, NoSpent;
      UsageRemove(cacheCoins, o);
      OverlayErase(cacheCoins, o, ParentView());
      cachedCoinsUsage := cachedCoinsUsage - cacheCoins[o].coin.DynamicMemoryUsage();
      cacheCoins := cacheCoins - {o};
      assert base != null ==> base.Valid();
    }

    method FetchCoin(o: OutPoint) returns (found: bool)
      requires Valid()
      modifies Repr
      ensures Valid() && unchanged(db) && hashBlock == old(hashBlock)
      ensures ParentView() == old(ParentView()) && Visible() == old(Visible())
      ensures found <==> o in cacheCoins
      ensures found <==> o in old(cacheCoins) || o in Visible()
      ensures o in Visible() ==> cacheCoins[o].coin == Visible()[o]
      ensures found && o !in Visible() ==> cacheCoins[o].coin == COIN_EMPTY
      ensures cacheCoins == if o !in old(cacheCoins) && o in Visible()
                            then old(cacheCoins)[o := Entry(Visible()[o], false, false)] else old(cacheCoins)
      decreases Repr, 0
    {
      hide Overlay, CacheOk, UsageSum, NoSpent;
      CachedCoin(cacheCoins, ParentView(), o);
      if o in cacheCoins {
        return true;
      }
      ParentNoSpent();
      var tmp: Option<Coin>;
      if base == null {
        tmp := db.GetCoin(o);
      } else {
        tmp := base.GetCoin(o);
      }
      if tmp == None {
        return false;
      }
      var e := Entry(tmp.value, false, false);
      if e.coin.IsSpent() {
        e := e.(isFresh := true);
      }
      PutEntry(o, e);
      return true;
    }

    method GetCoin(o: OutPoint) returns (r: Option<Coin>)
      requires Valid()
      modifies Repr
      ensures Valid() && unchanged(db) && hashBlock == old(hashBlock)
      ensures ParentView() == old(ParentView()) && Visible() == old(Visible())
      ensures r == if o in Visible() then Some(Visible()[o]) else None
      decreases Repr, 1
    {
      var found := FetchCoin(o);
      if found && !cacheCoins[o].coin.IsSpent() {
        r := Some(cacheCoins[o].coin);
      } else {
        r := None;
      }
    }

    // The block of this layer, found out from the layers below if it is not set.
    method GetBestBlock() returns (hash: Hash)
      requires Structure()
      modifies Repr
      ensures hash == old(BestBlock()) && BestBlock() == old(BestBlock()) && unchanged(db)
      ensures old(Valid()) ==> Valid() && Visible() == old(Visible())
      decreases Repr
    {
      if hashBlock == NO_BLOCK {
        if base == null {
          hashBlock := db.bestBlock;
        } else {
          hashBlock := base.GetBestBlock();
        }
      }
      hash := hashBlock;
    }

    ghost function BestBlock(): Hash
      requires Structure()
      reads Repr
      decreases Repr, 1
    {
      if hashBlock != NO_BLOCK then hashBlock else BestBelow()
    }

    ghost function BestBelow(): Hash
      requires Structure()
      reads Repr
      decreases Repr, 0
    {
      if base == null then db.bestBlock else base.BestBlock()
    }

    method SetBestBlock(hash: Hash)
      requires Valid()
      modifies this`hashBlock
      ensures Valid() && ParentView() == old(ParentView()) && Visible() == old(Visible()) && hashBlock == hash
      ensures BestBlock() == if hash != NO_BLOCK then hash else BestBelow()
    {
      hashBlock := hash;
    }

    method HaveCoin(o: OutPoint) returns (r: bool)
      requires Valid()
      modifies Repr
      ensures Valid() && unchanged(db) && hashBlock == old(hashBlock)
      ensures ParentView() == old(ParentView()) && Visible() == old(Visible())
      ensures r <==> o in Visible()
    {
      var found := FetchCoin(o);
      ParentNoSpent();
      r := found && !cacheCoins[o].coin.IsSpent();
    }

    // The caller's promise: without `possibleOverwrite` no unspent version is visible.
    // `ok` is false where the source throws; the usage total is then already reduced.
    method AddCoin(o: OutPoint, coin: Coin, possibleOverwrite: bool) returns (ok: bool)
      requires Valid() && !coin.IsSpent()
      requires !possibleOverwrite && o !in cacheCoins ==> o !in Visible()
      modifies this`cacheCoins, this`cachedCoinsUsage
      ensures ok <==> IsUnspendable(coin.out.scriptPubKey) || possibleOverwrite || o !in old(Visible())
      ensures ok ==> Valid() && ParentView() == old(ParentView())
      ensures ok ==> Visible() == if IsUnspendable(coin.out.scriptPubKey) then old(Visible())
                                  else old(Visible())[o := coin]
      ensures ok ==> cacheCoins == if IsUnspendable(coin.out.scriptPubKey) then old(cacheCoins)
                                   else old(cacheCoins)[o := Added(old(cacheCoins), o, coin, possibleOverwrite)]
      ensures !ok ==> cacheCoins == old(cacheCoins) && o in cacheCoins
                      && cachedCoinsUsage == old(cachedCoinsUsage) - cacheCoins[o].coin.DynamicMemoryUsage()
    {
      if IsUnspendable(coin.out.scriptPubKey) {
        return true;
      }
      var e := if o in cacheCoins then cacheCoins[o] else Entry(COIN_EMPTY, false, false);
      var isFresh := false;
      if !possibleOverwrite {
        if !e.coin.IsSpent() {
          UsageRemove(cacheCoins, o);
          cachedCoinsUsage := cachedCoinsUsage - e.coin.DynamicMemoryUsage();
          return false;  // attempted to overwrite an unspent coin
        }
        isFresh := !e.isDirty;
      }
      PutEntry(o, Entry(coin, true, e.isFresh || isFresh));
      ok := true;
    }

    method SpendCoin(o: OutPoint) returns (r: bool, moveout: Coin)
      requires Valid()
      modifies Repr
      ensures Valid() && unchanged(db) && hashBlock == old(hashBlock)
      ensures ParentView() == old(ParentView())
      ensures Visible() == old(Visible()) - {o}
      ensures r <==> o in old(cacheCoins) || o in old(Visible())
      ensures cacheCoins == if !r then old(cacheCoins)
                            else if o in old(cacheCoins) && old(cacheCoins)[o].isFresh then old(cacheCoins) - {o}
                            else old(cacheCoins)[o := Entry(COIN_EMPTY, true, false)]
      ensures moveout == if o in old(Visible()) then old(Visible())[o] else COIN_EMPTY
    {
      moveout := COIN_EMPTY;
      var found := FetchCoin(o);
      if !found {
        return false, moveout;
      }
      var e := cacheCoins[o];
      moveout := e.coin;
      if e.isFresh {
        EraseEntry(o);
      } else {
        PutEntry(o, Entry(COIN_EMPTY, true, false));
      }
      r := true;
    }

    // What FRESH is for: a coin made and spent again in one layer leaves nothing to write back.
    method AddThenSpend(o: OutPoint, coin: Coin)
      requires Valid() && !coin.IsSpent() && o !in cacheCoins && o !in Visible()
      modifies Repr
      ensures Valid() && cacheCoins == old(cacheCoins) && Visible() == old(Visible())
    {
      var _ := AddCoin(o, coin, false);
      var _, _ := SpendCoin(o);
    }

    method Uncache(o: OutPoint)
      requires Valid()
      modifies this`cacheCoins, this`cachedCoinsUsage
      ensures Valid() && ParentView() == old(ParentView()) && Visible() == old(Visible())
      ensures cacheCoins == if o in old(cacheCoins) && !old(cacheCoins)[o].isDirty && !old(cacheCoins)[o].isFresh
                            then old(cacheCoins) - {o} else old(cacheCoins)
    {
      if o in cacheCoins && !cacheCoins[o].isDirty && !cacheCoins[o].isFresh {
        EraseEntry(o);
      }
    }

    // Fold one entry of a child's map into this layer.
    method MergeEntry(o: OutPoint, e: Entry)
      requires Valid() && EntryOk(o, e, Visible())
      modifies this`cacheCoins, this`cachedCoinsUsage
      ensures Valid() && ParentView() == old(ParentView())
      ensures Visible() == if e.coin.IsSpent() then old(Visible()) - {o} else old(Visible())[o := e.coin]
      ensures cacheCoins == Merged(old(cacheCoins), o, e)
    {
      if !e.isDirty {
        return;
      }
      if o !in cacheCoins {
        if !(e.isFresh && e.coin.IsSpent()) {
          PutEntry(o, Entry(e.coin, true, e.isFresh));
        }
      } else {
        var us := cacheCoins[o];
        assert !(e.isFresh && !us.coin.IsSpent());  // the "FRESH flag misapplied" error is not raised
        if us.isFresh && e.coin.IsSpent() {
          EraseEntry(o);
        } else {
          PutEntry(o, Entry(e.coin, true, us.isFresh));
        }
      }
    }

    method BatchWrite(mapCoins: CoinsMap, hashBlockIn: Hash, erase: bool) returns (rest: CoinsMap)
      requires Valid() && CacheOk(mapCoins, Visible())
      modifies this`cacheCoins, this`cachedCoinsUsage, this`hashBlock
      ensures Valid() && hashBlock == hashBlockIn && ParentView() == old(ParentView())
      ensures Visible() == Overlay(mapCoins, old(Visible()))
      ensures MergedAll(old(cacheCoins), mapCoins, cacheCoins)
      ensures rest == if erase then map[] else mapCoins
    {
      var todo := mapCoins;
      assert Visible() == Overlay(mapCoins - todo.Keys, Visible());
      NothingMerged(cacheCoins, mapCoins);
      while todo != map[]
        invariant Valid() && ParentView() == old(ParentView())
        invariant Remaining(mapCoins, todo)
        invariant MergedAll(old(cacheCoins), mapCoins - todo.Keys, cacheCoins)
        invariant Visible() == Overlay(mapCoins - todo.Keys, old(Visible()))
        decreases todo.Keys
      {
        var o :| o in todo;
        var e := todo[o];
        TakeOne(mapCoins, todo, o);
        EntryOkUntouched(mapCoins - todo.Keys, o, e, old(Visible()));
        OverlaySet(mapCoins - todo.Keys, o, e, old(Visible()));
        MergeNext(old(cacheCoins), mapCoins - todo.Keys, cacheCoins, o, e);
        MergeEntry(o, e);
        todo := todo - {o};
      }
      assert mapCoins - todo.Keys == mapCoins;
      SetBestBlock(hashBlockIn);
      rest := if erase then todo else mapCoins;
    }

    // Writing back to the database needs a block to move to.
    ghost predicate CanWrite()
      reads this, db
    {
      base == null ==> db.CanAdvance(hashBlock)
    }

    // The layer below stands for the block this layer stands for.
    ghost predicate AtSameBlock()
      reads this, if base == null then {db as object} else {base as object}
    {
      if base == null then db.bestBlock == hashBlock && db.headBlocks == None else base.hashBlock == hashBlock
    }

    // Push every modification to the layer below, which then shows what this layer shows.
    method WriteToBase(erase: bool) returns (rest: CoinsMap, ghost cuts: seq<Disk>)
      requires Valid() && CanWrite()
      modifies if base == null then {db as object} else {base as object}
      ensures Structure() && NoSpent(db.coins) && (base != null ==> base.Valid())
      ensures ParentView() == old(Visible()) && AtSameBlock()
      ensures rest == if erase then map[] else cacheCoins
      ensures base == null ==>
                && db.log == old(db.log) + cuts + [db.OnDisk()]
                && forall k :: 0 <= k < |cuts| ==>
                     OnTheWay(cuts[k], hashBlock, old(db.OldTip()), old(db.coins), db.coins)
    {
      ParentNoSpent();
      cuts := [];
      if base == null {
        rest, cuts := db.BatchWrite(cacheCoins, hashBlock, erase);
      } else {
        rest := base.BatchWrite(cacheCoins, hashBlock, erase);
      }
    }

    method Flush() returns (ghost cuts: seq<Disk>)
      requires Valid() && CanWrite()
      modifies this`cacheCoins, this`cachedCoinsUsage, if base == null then {db as object} else {base as object}
      ensures Valid()
      ensures ParentView() == old(Visible()) && Visible() == old(Visible()) && AtSameBlock()
      ensures cacheCoins == map[]
      ensures base == null ==>
                && db.log == old(db.log) + cuts + [db.OnDisk()]
                && forall k :: 0 <= k < |cuts| ==>
                     OnTheWay(cuts[k], hashBlock, old(db.OldTip()), old(db.coins), db.coins)
    {
      hide Overlay, CacheOk, NoSpent, OnTheWay;
      cacheCoins, cuts := WriteToBase(true);
      cachedCoinsUsage := 0;
      EmptyCache(ParentView());
    }

    method Sync() returns (ghost cuts: seq<Disk>)
      requires Valid() && CanWrite()
      modifies this`cacheCoins, this`cachedCoinsUsage, if base == null then {db as object} else {base as object}
      ensures Valid()
      ensures ParentView() == old(Visible()) && Visible() == old(Visible()) && AtSameBlock()
      ensures cacheCoins == Cleaned(old(cacheCoins))
      ensures base == null ==>
                && db.log == old(db.log) + cuts + [db.OnDisk()]
                && forall k :: 0 <= k < |cuts| ==>
                     OnTheWay(cuts[k], hashBlock, old(db.OldTip()), old(db.coins), db.coins)
    {
      hide Overlay, CacheOk, UsageSum, NoSpent, Cleaned, OnTheWay;
      SyncedEntries(cacheCoins, ParentView());
      cacheCoins, cuts := WriteToBase(false);
      ClearFlags();
    }

    // The loop at the end of Sync: drop spent entries, clear the flags of the others.
    method ClearFlags()
      requires cachedCoinsUsage == UsageSum(cacheCoins)
      modifies this`cacheCoins, this`cachedCoinsUsage
      ensures cacheCoins == Cleaned(old(cacheCoins))
      ensures cachedCoinsUsage == UsageSum(cacheCoins)
    {
      hide UsageSum, SyncStage, Cleaned;
      var todo := cacheCoins;
      StageStart(cacheCoins);
      while todo != map[]
        invariant Remaining(old(cacheCoins), todo)
        invariant cacheCoins == SyncStage(old(cacheCoins), todo)
        invariant cachedCoinsUsage == UsageSum(cacheCoins)
        decreases todo.Keys
      {
        var o :| o in todo;
        StageNext(old(cacheCoins), todo, o);
        var coin := cacheCoins[o].coin;
        if coin.IsSpent() {
          UsageRemove(cacheCoins, o);
          cachedCoinsUsage := cachedCoinsUsage - coin.DynamicMemoryUsage();
          cacheCoins := cacheCoins - {o};
        } else {
          UsageSet(cacheCoins, o, Entry(coin, false, false));
          cacheCoins := cacheCoins[o := Entry(coin, false, false)];
        }
        todo := todo - {o};
      }
      StageEnd(old(cacheCoins));
    }

    // Flush this layer and every layer below: the database ends up holding what this layer showed.
    method FlushToDisk()
      requires Valid() && db.CanAdvance(hashBlock)
      modifies Repr
      ensures Valid() && Visible() == old(Visible())
      ensures db.OnDisk() == Disk(old(Visible()), old(hashBlock), None)
      decreases Repr
    {
      ghost var _ := Flush();
      if base != null {
        base.FlushToDisk();
      }
    }

    method SanityCheck() returns (ok: bool)
      requires Structure()
      ensures ok <==>
                && (forall o :: o in cacheCoins ==> LegalState(cacheCoins[o]))
                && cachedCoinsUsage == UsageSum(cacheCoins)
      ensures Valid() ==> ok
    {
      var recomputed := 0;
      var todo := cacheCoins;
      while todo != map[]
        invariant Remaining(cacheCoins, todo)
        invariant forall o :: o in cacheCoins && o !in todo ==> LegalState(cacheCoins[o])
        invariant recomputed + UsageSum(todo) == UsageSum(cacheCoins)
        decreases todo.Keys
      {
        var o :| o in todo;
        var e := todo[o];
        var attr := (if e.isDirty then 1 else 0) + (if e.isFresh then 2 else 0) + (if e.coin.IsSpent() then 4 else 0);
        if attr == 2 || attr == 4 || attr == 7 {
          return false;
        }
        UsageRemove(todo, o);
        recomputed := recomputed + e.coin.DynamicMemoryUsage();
        todo := todo - {o};
      }
      ok := recomputed == cachedCoinsUsage;
    }

    // Any sequence of operations on a layer shows what a plain map would show.
    method Replay(ops: seq<Op>)
      requires Valid() && Promised(ops, Visible())
      requires (exists i :: 0 <= i < |ops| && ops[i].WriteBack?) ==> CanWrite()
      modifies Repr
      ensures Valid() && Visible() == PlainRun(ops, old(Visible()))
    {
      for i := 0 to |ops|
        invariant Valid() && (old(CanWrite()) ==> CanWrite()) && Promised(ops[i..], Visible())
        invariant PlainRun(ops[i..], Visible()) == PlainRun(ops, old(Visible()))
      {
        ghost var before := Visible();
        assert ops[i..][1..] == ops[i + 1..];
        Perform(ops[i]);
        assert Visible() == Plain(ops[i], before);
      }
    }

    method Perform(op: Op)
      requires Valid() && (op.WriteBack? ==> CanWrite()) && OpPromised(op, Visible())
      modifies Repr
      ensures Valid() && (old(CanWrite()) ==> CanWrite()) && Visible() == Plain(op, old(Visible()))
    {
      match op
      case Lookup(o) => var _ := GetCoin(o);
      case Add(o, coin, overwrite) => var _ := AddCoin(o, coin, overwrite);
      case AddTx(tx, height, check) => AddCoins(tx, height, check);
      case Spend(o) => var _, _ := SpendCoin(o);
      case Drop(o) => Uncache(o);
      case WriteBack(erase) => if erase { var _ := Flush(); } else { var _ := Sync(); }
    }

    // Add all outputs of a transaction.
    method AddCoins(tx: Tx, nHeight: nat, check: bool)
      requires Valid() && TxPromised(tx, check, Visible())
      modifies Repr
      ensures Valid() && unchanged(db) && hashBlock == old(hashBlock) && ParentView() == old(ParentView())
      ensures Visible() == WithOutputs(tx, |tx.vout|, nHeight, old(Visible()))
    {
      for i := 0 to |tx.vout|
        invariant Valid() && unchanged(db) && hashBlock == old(hashBlock) && ParentView() == old(ParentView())
        invariant Visible() == WithOutputs(tx, i, nHeight, old(Visible()))
      {
        var o := OutPoint(tx.txid, i);
        var overwrite := tx.coinbase;
        if check {
          overwrite := HaveCoin(o);
        }
        OutputsSoFar(tx, i, nHeight, old(Visible()));
        var _ := AddCoin(o, Coin(tx.vout[i], tx.coinbase, nHeight), overwrite);
      }
    }
  }

  datatype Tx = Tx(txid: nat, vout: seq<TxOut>, coinbase: bool)

  datatype Op =
    | Lookup(o: OutPoint)
    | Add(o: OutPoint, coin: Coin, overwrite: bool)
    | AddTx(tx: Tx, height: nat, check: bool)
    | Spend(o: OutPoint)
    | Drop(o: OutPoint)
    | WriteBack(erase: bool)

  // The first n outputs of a transaction entered into a plain map, unspendable ones dropped.
  ghost function WithOutputs(tx: Tx, n: nat, nHeight: nat, m: Utxo): Utxo
    requires n <= |tx.vout|
  {
    if n == 0 then m else
      var before := WithOutputs(tx, n - 1, nHeight, m);
      if IsUnspendable(tx.vout[n - 1].scriptPubKey) then before
      else before[OutPoint(tx.txid, n - 1) := Coin(tx.vout[n - 1], tx.coinbase, nHeight)]
  }

  // Outputs not yet added leave their outpoints as they were.
  lemma OutputsSoFar(tx: Tx, n: nat, nHeight: nat, m: Utxo)
    requires n <= |tx.vout|
    ensures forall k :: k >= n ==>
              (OutPoint(tx.txid, k) in WithOutputs(tx, n, nHeight, m) <==> OutPoint(tx.txid, k) in m)
  {}

  // What the caller promises: outputs are real, and without a lookup only a
  // coinbase may overwrite unspent outputs.
  ghost predicate TxPromised(tx: Tx, check: bool, m: Utxo) {
    && (forall k :: 0 <= k < |tx.vout| ==> tx.vout[k].nValue != -1)
    && (!check && !tx.coinbase ==> forall k :: 0 <= k < |tx.vout| ==> OutPoint(tx.txid, k) !in m)
  }

  // The same operations on a plain map: lookups, uncaching and write-backs do nothing.
  ghost function Plain(op: Op, m: Utxo): Utxo {
    match op
    case Add(o, coin, _) => if IsUnspendable(coin.out.scriptPubKey) then m else m[o := coin]
    case AddTx(tx, height, _) => WithOutputs(tx, |tx.vout|, height, m)
    case Spend(o) => m - {o}
    case _ => m
  }

  ghost predicate OpPromised(op: Op, m: Utxo) {
    match op
    case Add(o, coin, overwrite) => !coin.IsSpent() && (overwrite || o !in m)
    case AddTx(tx, _, check) => TxPromised(tx, check, m)
    case _ => true
  }

  ghost function PlainRun(ops: seq<Op>, m: Utxo): Utxo {
    if ops == [] then m else PlainRun(ops[1..], Plain(ops[0], m))
  }

  ghost predicate Promised(ops: seq<Op>, m: Utxo) {
    ops != [] ==> OpPromised(ops[0], m) && Promised(ops[1..], Plain(ops[0], m))
  }

  // Spent entries dropped, flags of the others cleared.
  ghost function Cleaned(cache: CoinsMap): CoinsMap {
    map o | o in cache && !cache[o].coin.IsSpent() :: Entry(cache[o].coin, false, false)
  }

  // The entry made by adding a coin.  Unless the parent may have the coin, it is FRESH; an entry that is
  // DIRTY but not FRESH may hide a coin of the parent.
  ghost function Added(cache: CoinsMap, o: OutPoint, coin: Coin, possibleOverwrite: bool): Entry {
    var isDirty := o in cache && cache[o].isDirty;
    var isFresh := o in cache && cache[o].isFresh;
    Entry(coin, true, isFresh || (!possibleOverwrite && !isDirty))
  }

  // A child's entry folded into the parent's map: only changes count, a coin the grandparent never
  // had vanishes, and FRESH is decided by the entry below.
  ghost function Merged(cache: CoinsMap, o: OutPoint, e: Entry): CoinsMap {
    if !e.isDirty then cache
    else if (if o in cache then cache[o].isFresh else e.isFresh) && e.coin.IsSpent() then cache - {o}
    else cache[o := Entry(e.coin, true, if o in cache then cache[o].isFresh else e.isFresh)]
  }

  ghost function EntryAt(cache: CoinsMap, o: OutPoint): Option<Entry> {
    if o in cache then Some(cache[o]) else None
  }

  // Every entry of a child's map was folded in, whatever the order.
  ghost predicate MergedAll(cache: CoinsMap, child: CoinsMap, cache': CoinsMap) {
    forall o {:trigger EntryAt(cache', o)} ::
      EntryAt(cache', o) == EntryAt(if o in child then Merged(cache, o, child[o]) else cache, o)
  }

  lemma NothingMerged(cache: CoinsMap, child: CoinsMap)
    ensures MergedAll(cache, child - child.Keys, cache)
  {}

  lemma MergeNext(cache: CoinsMap, child: CoinsMap, cache': CoinsMap, o: OutPoint, e: Entry)
    requires MergedAll(cache, child, cache') && o !in child
    ensures MergedAll(cache, child[o := e], Merged(cache', o, e))
  {
    forall p ensures EntryAt(Merged(cache', o, e), p) ==
                     EntryAt(if p in child[o := e] then Merged(cache, p, child[o := e][p]) else cache, p)
    {
      assert EntryAt(cache', p) == EntryAt(if p in child then Merged(cache, p, child[p]) else cache, p);
    }
  }

  // Half way through: entries still to visit are as they were, visited ones are cleaned.
  ghost function SyncStage(cache: CoinsMap, todo: CoinsMap): CoinsMap {
    map o | o in cache && (o in todo || !cache[o].coin.IsSpent())
      :: if o in todo then cache[o] else Entry(cache[o].coin, false, false)
  }

  lemma EmptyCache(parent: Utxo)
    ensures Overlay(map[], parent) == parent && CacheOk(map[], parent)
  {}

  lemma StageStart(cache: CoinsMap)
    ensures SyncStage(cache, cache) == cache
  {}

  lemma StageNext(cache: CoinsMap, todo: CoinsMap, o: OutPoint)
    requires Remaining(cache, todo) && o in todo
    ensures o in cache && o in SyncStage(cache, todo) && SyncStage(cache, todo)[o] == cache[o]
    ensures Remaining(cache, todo - {o})
    ensures SyncStage(cache, todo - {o}) ==
            if cache[o].coin.IsSpent() then SyncStage(cache, todo) - {o}
            else SyncStage(cache, todo)[o := Entry(cache[o].coin, false, false)]
  {}

  lemma StageEnd(cache: CoinsMap)
    ensures SyncStage(cache, map[]) == Cleaned(cache)
  {}

  // Once the parent shows what the cache shows, the cleaned cache is right again.
  lemma SyncedEntries(cache: CoinsMap, parent: Utxo)
    requires CacheOk(cache, parent)
    ensures CacheOk(Cleaned(cache), Overlay(cache, parent))
    ensures Overlay(Cleaned(cache), Overlay(cache, parent)) == Overlay(cache, parent)
  {}

  // Why the promise of AddCoin matters: for an outpoint not in the cache, marking the
  // new coin FRESH and spending it later shows the right map exactly when the parent had no coin.
  lemma FreshIsSafeIffAbsent(cache: CoinsMap, parent: Utxo, o: OutPoint, coin: Coin)
    requires o !in cache && !coin.IsSpent()
    ensures Overlay(cache[o := Entry(coin, true, true)] - {o}, parent) == Overlay(cache, parent) - {o} <==> o !in parent
  {
    assert cache[o := Entry(coin, true, true)] - {o} == cache;
    if o in parent {
      assert o in Overlay(cache, parent);
    }
  }

  // Entries applied at other outpoints leave the condition on this one alone.
  lemma EntryOkUntouched(done: CoinsMap, o: OutPoint, e: Entry, parent: Utxo)
    requires o !in done && EntryOk(o, e, parent)
    ensures EntryOk(o, e, Overlay(done, parent))
  {}
}
