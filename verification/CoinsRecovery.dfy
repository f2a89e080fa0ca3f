/** Connecting and disconnecting blocks on a coin view, and finishing a write-back of the
    coins that a crash has interrupted. */
module CoinsRecovery {
  import opened Basics
  import opened Coins

  datatype BlockTx = BlockTx(tx: Tx, vin: seq<OutPoint>)

  // A block and the coins its transactions spent, one list for each but the first.
  datatype Block = Block(prev: Hash, height: nat, vtx: seq<BlockTx>, undo: seq<seq<Coin>>)

  datatype DisconnectResult = DISCONNECT_OK | DISCONNECT_UNCLEAN | DISCONNECT_FAILED

  // MAX_BLOCK_WEIGHT / MIN_TRANSACTION_OUTPUT_WEIGHT
  const MAX_OUTPUTS_PER_BLOCK := 4000000 / (4 * 9)

  // Amounts are never the mark of a spent coin.
  ghost predicate Real(b: Block) {
    && (forall i :: 0 <= i < |b.vtx| ==> TxPromised(b.vtx[i].tx, true, map[]))
    && (forall i, j :: 0 <= i < |b.undo| && 0 <= j < |b.undo[i]| ==> !b.undo[i][j].IsSpent())
  }

  // ---- connecting ----

  ghost function Connect(t: BlockTx, height: nat, m: Utxo): Utxo {
    WithOutputs(t.tx, |t.tx.vout|, height, if t.tx.coinbase then m else m - Inputs(t.vin))
  }

  ghost function Inputs(vin: seq<OutPoint>): set<OutPoint> {
    set o | o in vin
  }

  // The coins after the first n transactions.
  ghost function Connected(b: Block, n: nat, m: Utxo): Utxo
    requires n <= |b.vtx|
  {
    if n == 0 then m else Connect(b.vtx[n - 1], b.height, Connected(b, n - 1, m))
  }

  method RollforwardBlock(b: Block, view: CoinsCache)
    requires view.Valid() && Real(b)
    modifies view.Repr
    ensures view.Valid() && unchanged(view.db) && view.hashBlock == old(view.hashBlock)
    ensures view.ParentView() == old(view.ParentView())
    ensures view.Visible() == Connected(b, |b.vtx|, old(view.Visible()))
  {
    for i := 0 to |b.vtx|
      invariant view.Valid() && unchanged(view.db) && view.hashBlock == old(view.hashBlock)
      invariant view.ParentView() == old(view.ParentView())
      invariant view.Visible() == Connected(b, i, old(view.Visible()))
    {
      var t := b.vtx[i];
      ghost var before := view.Visible();
      if !t.tx.coinbase {
        SpendInputs(t.vin, view);
      }
      view.AddCoins(t.tx, b.height, true);
    }
  }

  method SpendInputs(vin: seq<OutPoint>, view: CoinsCache)
    requires view.Valid()
    modifies view.Repr
    ensures view.Valid() && unchanged(view.db) && view.hashBlock == old(view.hashBlock)
    ensures view.ParentView() == old(view.ParentView())
    ensures view.Visible() == old(view.Visible()) - Inputs(vin)
  {
    hide CacheOk, NoSpent, UsageSum, CoinsCache.Structure, CoinsCache.ParentView, CoinsCache.Visible;
    for j := 0 to |vin|
      invariant view.Valid() && unchanged(view.db) && view.hashBlock == old(view.hashBlock)
      invariant view.ParentView() == old(view.ParentView())
      invariant view.Visible() == old(view.Visible()) - Inputs(vin[..j])
    {
      var _, _ := view.SpendCoin(vin[j]);
      assert Inputs(vin[..j + 1]) == Inputs(vin[..j]) + {vin[j]};
    }
    assert vin[..|vin|] == vin;
  }

  // ---- disconnecting ----

  ghost predicate IsOutput(tx: Tx, n: nat, o: OutPoint)
    requires n <= |tx.vout|
  {
    o.hash == tx.txid && o.n < n && !IsUnspendable(tx.vout[o.n].scriptPubKey)
  }

  ghost function WithoutOutputs(tx: Tx, n: nat, m: Utxo): Utxo
    requires n <= |tx.vout|
  {
    map o | o in m && !IsOutput(tx, n, o) :: m[o]
  }

  // All spendable outputs are there, exactly as the block made them.
  ghost predicate OutputsMatch(tx: Tx, n: nat, height: nat, m: Utxo)
    requires n <= |tx.vout|
  {
    forall o :: IsOutput(tx, n, o) ==> o in m && m[o] == Coin(tx.vout[o.n], tx.coinbase, height)
  }

  // Inputs are restored from the last to the first; the result when those from j on are.
  ghost function Restored(vin: seq<OutPoint>, undo: seq<Coin>, j: nat, m: Utxo): Utxo
    requires j <= |vin| == |undo|
    decreases |vin| - j
  {
    if j == |vin| then m else
      var r := Restored(vin, undo, j + 1, m);
      if IsUnspendable(undo[j].out.scriptPubKey) then r else r[vin[j] := undo[j]]
  }

  // No restored input was there already.
  ghost predicate RestoresClean(vin: seq<OutPoint>, undo: seq<Coin>, j: nat, m: Utxo)
    requires j <= |vin| == |undo|
    decreases |vin| - j
  {
    j == |vin| || (RestoresClean(vin, undo, j + 1, m) && vin[j] !in Restored(vin, undo, j + 1, m))
  }

  // There is undo data for every input, with the metadata that old versions left out.
  ghost predicate UndoFits(b: Block) {
    |b.undo| + 1 == |b.vtx| && forall i :: 0 < i < |b.vtx| ==> |b.undo[i - 1]| == |b.vtx[i].vin|
  }

  ghost predicate HeightsKnown(b: Block) {
    forall i, j :: 0 <= i < |b.undo| && 0 <= j < |b.undo[i]| ==> b.undo[i][j].nHeight != 0
  }

  ghost function Disconnect(b: Block, i: nat, m: Utxo): Utxo
    requires UndoFits(b) && i < |b.vtx|
  {
    var t := b.vtx[i];
    var m1 := WithoutOutputs(t.tx, |t.tx.vout|, m);
    if i == 0 then m1 else Restored(t.vin, b.undo[i - 1], 0, m1)
  }

  // Outputs of a coinbase are not compared for the blocks exempted from BIP30.
  ghost predicate DisconnectsClean(b: Block, i: nat, m: Utxo, enforceBip30: bool)
    requires UndoFits(b) && i < |b.vtx|
  {
    var t := b.vtx[i];
    && ((t.tx.coinbase && !enforceBip30) || OutputsMatch(t.tx, |t.tx.vout|, b.height, m))
    && (i > 0 ==> RestoresClean(t.vin, b.undo[i - 1], 0, WithoutOutputs(t.tx, |t.tx.vout|, m)))
  }

  // The coins when the transactions from i on are disconnected.
  ghost function Disconnected(b: Block, i: nat, m: Utxo): Utxo
    requires UndoFits(b) && i <= |b.vtx|
    decreases |b.vtx| - i
  {
    if i == |b.vtx| then m else Disconnect(b, i, Disconnected(b, i + 1, m))
  }

  ghost predicate AllClean(b: Block, i: nat, m: Utxo, enforceBip30: bool)
    requires UndoFits(b) && i <= |b.vtx|
    decreases |b.vtx| - i
  {
    i == |b.vtx| || (AllClean(b, i + 1, m, enforceBip30)
                     && DisconnectsClean(b, i, Disconnected(b, i + 1, m), enforceBip30))
  }

  // The first unspent output of a transaction from the n-th on, a spent coin if there is none.
  ghost function FirstUnspent(m: Utxo, txid: nat, n: nat): Coin
    decreases MAX_OUTPUTS_PER_BLOCK - n
  {
    if n >= MAX_OUTPUTS_PER_BLOCK then COIN_EMPTY
    else if OutPoint(txid, n) in m then m[OutPoint(txid, n)]
    else FirstUnspent(m, txid, n + 1)
  }

  method AccessByTxid(view: CoinsCache, txid: nat) returns (coin: Coin)
    requires view.Valid()
    modifies view.Repr
    ensures view.Valid() && unchanged(view.db) && view.hashBlock == old(view.hashBlock)
    ensures view.ParentView() == old(view.ParentView()) && view.Visible() == old(view.Visible())
    ensures coin == FirstUnspent(view.Visible(), txid, 0)
    ensures coin.IsSpent() ==> forall n :: 0 <= n < MAX_OUTPUTS_PER_BLOCK ==> OutPoint(txid, n) !in view.Visible()
  {
    for n := 0 to MAX_OUTPUTS_PER_BLOCK
      invariant view.Valid() && unchanged(view.db) && view.hashBlock == old(view.hashBlock)
      invariant view.ParentView() == old(view.ParentView()) && view.Visible() == old(view.Visible())
      invariant FirstUnspent(view.Visible(), txid, 0) == FirstUnspent(view.Visible(), txid, n)
      invariant forall k :: 0 <= k < n ==> OutPoint(txid, k) !in view.Visible()
    {
      var alternate := view.GetCoin(OutPoint(txid, n));
      if alternate.Some? {
        view.ParentNoSpent();
        return alternate.value;
      }
    }
    coin := COIN_EMPTY;
  }

  // Undo data with the metadata that old versions left out taken from another output.
  ghost function Completed(undo: Coin, other: Coin): Coin {
    if undo.nHeight != 0 then undo else undo.(nHeight := other.nHeight, fCoinBase := other.fCoinBase)
  }

  method ApplyTxInUndo(undo: Coin, view: CoinsCache, out: OutPoint) returns (res: DisconnectResult)
    requires view.Valid() && !undo.IsSpent()
    modifies view.Repr
    ensures view.Valid() && unchanged(view.db) && view.hashBlock == old(view.hashBlock)
    ensures view.ParentView() == old(view.ParentView())
    ensures var m := old(view.Visible()); var other := FirstUnspent(m, out.hash, 0);
            if undo.nHeight == 0 && other.IsSpent() then res == DISCONNECT_FAILED && view.Visible() == m
            else
              && res == (if out in m then DISCONNECT_UNCLEAN else DISCONNECT_OK)
              && view.Visible() == if IsUnspendable(undo.out.scriptPubKey) then m else m[out := Completed(undo, other)]
  {
    hide FirstUnspent;
    var known := view.HaveCoin(out);
    var coin := undo;
    if undo.nHeight == 0 {
      var alternate := AccessByTxid(view, out.hash);
      if alternate.IsSpent() {
        return DISCONNECT_FAILED;
      }
      coin := undo.(nHeight := alternate.nHeight, fCoinBase := alternate.fCoinBase);
    }
    var _ := view.AddCoin(out, coin, known);
    res := if known then DISCONNECT_UNCLEAN else DISCONNECT_OK;
  }

  method SpendOutputs(tx: Tx, height: nat, view: CoinsCache) returns (matches: bool)
    requires view.Valid() && TxPromised(tx, true, map[])
    modifies view.Repr
    ensures view.Valid() && unchanged(view.db) && view.hashBlock == old(view.hashBlock)
    ensures view.ParentView() == old(view.ParentView())
    ensures view.Visible() == WithoutOutputs(tx, |tx.vout|, old(view.Visible()))
    ensures matches <==> OutputsMatch(tx, |tx.vout|, height, old(view.Visible()))
  {
    hide OutputsMatch, WithoutOutputs, CacheOk, NoSpent, UsageSum, CoinsCache.Structure,
         CoinsCache.ParentView, CoinsCache.Visible;
    matches := true;
    NoOutputs(tx, height, view.Visible());
    for k := 0 to |tx.vout|
      invariant view.Valid() && unchanged(view.db) && view.hashBlock == old(view.hashBlock)
      invariant view.ParentView() == old(view.ParentView())
      invariant view.Visible() == WithoutOutputs(tx, k, old(view.Visible()))
      invariant matches <==> OutputsMatch(tx, k, height, old(view.Visible()))
    {
      OutputNext(tx, k, height, old(view.Visible()));
      if !IsUnspendable(tx.vout[k].scriptPubKey) {
        var spent, coin := view.SpendCoin(OutPoint(tx.txid, k));
        if !spent || tx.vout[k] != coin.out || height != coin.nHeight || tx.coinbase != coin.fCoinBase {
          matches := false;
        }
      }
    }
  }

  lemma NoOutputs(tx: Tx, height: nat, m: Utxo)
    ensures WithoutOutputs(tx, 0, m) == m && OutputsMatch(tx, 0, height, m)
  {}

  lemma OutputNext(tx: Tx, k: nat, height: nat, m: Utxo)
    requires k < |tx.vout|
    ensures var o := OutPoint(tx.txid, k); var m' := WithoutOutputs(tx, k, m);
            if IsUnspendable(tx.vout[k].scriptPubKey) then
              && WithoutOutputs(tx, k + 1, m) == m'
              && (OutputsMatch(tx, k + 1, height, m) <==> OutputsMatch(tx, k, height, m))
            else
              && WithoutOutputs(tx, k + 1, m) == m' - {o} && SameAt(m, m', o)
              && (OutputsMatch(tx, k + 1, height, m) <==>
                  OutputsMatch(tx, k, height, m) && o in m && m[o] == Coin(tx.vout[k], tx.coinbase, height))
  {
    var o := OutPoint(tx.txid, k);
    forall p: OutPoint
      ensures IsOutput(tx, k + 1, p) <==> IsOutput(tx, k, p) || (p == o && !IsUnspendable(tx.vout[k].scriptPubKey))
    {
      assert p == OutPoint(p.hash, p.n);
    }
    if !IsUnspendable(tx.vout[k].scriptPubKey) {
      assert IsOutput(tx, k + 1, o);
    }
  }

  method RestoreInputs(vin: seq<OutPoint>, undo: seq<Coin>, view: CoinsCache) returns (res: DisconnectResult)
    requires view.Valid() && forall j :: 0 <= j < |undo| ==> !undo[j].IsSpent()
    modifies view.Repr
    ensures view.Valid() && unchanged(view.db) && view.hashBlock == old(view.hashBlock)
    ensures view.ParentView() == old(view.ParentView())
    ensures |vin| != |undo| ==> res == DISCONNECT_FAILED
    ensures |vin| == |undo| && (forall j :: 0 <= j < |undo| ==> undo[j].nHeight != 0) ==>
              && res != DISCONNECT_FAILED && view.Visible() == Restored(vin, undo, 0, old(view.Visible()))
              && (res == DISCONNECT_OK <==> RestoresClean(vin, undo, 0, old(view.Visible())))
  {
    if |undo| != |vin| {
      return DISCONNECT_FAILED;
    }
    ghost var known := forall j :: 0 <= j < |undo| ==> undo[j].nHeight != 0;
    res := DISCONNECT_OK;
    for j := |vin| downto 0
      invariant view.Valid() && unchanged(view.db) && view.hashBlock == old(view.hashBlock)
      invariant view.ParentView() == old(view.ParentView())
      invariant res != DISCONNECT_FAILED
      invariant known ==> view.Visible() == Restored(vin, undo, j, old(view.Visible()))
      invariant known ==> (res == DISCONNECT_OK <==> RestoresClean(vin, undo, j, old(view.Visible())))
    {
      var r := ApplyTxInUndo(undo[j], view, vin[j]);
      if r == DISCONNECT_FAILED {
        return r;
      }
      if r == DISCONNECT_UNCLEAN {
        res := r;
      }
    }
  }

  method DisconnectTx(b: Block, i: nat, view: CoinsCache, enforceBip30: bool) returns (res: DisconnectResult)
    requires view.Valid() && Real(b) && |b.undo| + 1 == |b.vtx| && i < |b.vtx|
    modifies view.Repr
    ensures view.Valid() && unchanged(view.db) && view.hashBlock == old(view.hashBlock)
    ensures view.ParentView() == old(view.ParentView())
    ensures res != DISCONNECT_FAILED && i > 0 ==> |b.undo[i - 1]| == |b.vtx[i].vin|
    ensures UndoFits(b) && HeightsKnown(b) ==>
              && res != DISCONNECT_FAILED && view.Visible() == Disconnect(b, i, old(view.Visible()))
              && (res == DISCONNECT_OK <==> DisconnectsClean(b, i, old(view.Visible()), enforceBip30))
  {
    hide OutputsMatch, WithoutOutputs, Restored, RestoresClean, CoinsCache.Valid;
    var t := b.vtx[i];
    var matches := SpendOutputs(t.tx, b.height, view);
    res := if matches || (t.tx.coinbase && !enforceBip30) then DISCONNECT_OK else DISCONNECT_UNCLEAN;
    if i > 0 {
      var r := RestoreInputs(t.vin, b.undo[i - 1], view);
      res := if r == DISCONNECT_OK then res else r;
    }
  }

  method DisconnectBlock(b: Block, view: CoinsCache, enforceBip30: bool) returns (res: DisconnectResult)
    requires view.Valid() && Real(b)
    modifies view.Repr
    ensures view.Valid() && unchanged(view.db) && view.ParentView() == old(view.ParentView())
    ensures !UndoFits(b) ==> res == DISCONNECT_FAILED
    ensures UndoFits(b) && HeightsKnown(b) ==>
              && res != DISCONNECT_FAILED && view.Visible() == Disconnected(b, 0, old(view.Visible()))
              && (res == DISCONNECT_OK <==> AllClean(b, 0, old(view.Visible()), enforceBip30))
    ensures view.hashBlock == if res == DISCONNECT_FAILED then old(view.hashBlock) else b.prev
  {
    assert view in view.Repr;
    hide Disconnect, DisconnectsClean, Disconnected, AllClean, HeightsKnown, Real, CacheOk, NoSpent, UsageSum,
         CoinsCache.Structure, CoinsCache.ParentView, CoinsCache.Visible;
    if |b.undo| + 1 != |b.vtx| {
      return DISCONNECT_FAILED;
    }
    var clean := true;
    NothingDisconnected(b, view.Visible(), enforceBip30);
    for i := |b.vtx| downto 0
      invariant view.Valid() && unchanged(view.db) && view.ParentView() == old(view.ParentView())
      invariant view.hashBlock == old(view.hashBlock)
      invariant forall k :: i <= k < |b.vtx| && k > 0 ==> |b.undo[k - 1]| == |b.vtx[k].vin|
      invariant UndoFits(b) && HeightsKnown(b) ==> view.Visible() == Disconnected(b, i, old(view.Visible()))
      invariant UndoFits(b) && HeightsKnown(b) ==> (clean <==> AllClean(b, i, old(view.Visible()), enforceBip30))
    {
      DisconnectedNext(b, i, old(view.Visible()), enforceBip30);
      var r := DisconnectTx(b, i, view, enforceBip30);
      if r == DISCONNECT_FAILED {
        return r;
      }
      clean := clean && r == DISCONNECT_OK;
    }
    view.SetBestBlock(b.prev);
    res := if clean then DISCONNECT_OK else DISCONNECT_UNCLEAN;
  }

  lemma NothingDisconnected(b: Block, m: Utxo, enforceBip30: bool)
    ensures UndoFits(b) ==> Disconnected(b, |b.vtx|, m) == m && AllClean(b, |b.vtx|, m, enforceBip30)
  {}

  lemma DisconnectedNext(b: Block, i: nat, m: Utxo, enforceBip30: bool)
    requires i < |b.vtx|
    ensures UndoFits(b) ==>
              var m' := Disconnected(b, i + 1, m);
              && Disconnected(b, i, m) == Disconnect(b, i, m')
              && (AllClean(b, i, m, enforceBip30) <==>
                  AllClean(b, i + 1, m, enforceBip30) && DisconnectsClean(b, i, m', enforceBip30))
  {
    hide Disconnect, DisconnectsClean;
  }

  // ---- connecting and disconnecting undo each other ----

  // The first transaction is the coinbase, and no other is.
  ghost predicate CoinbaseFirst(b: Block) {
    forall i :: 0 <= i < |b.vtx| ==> (b.vtx[i].tx.coinbase <==> i == 0)
  }

  // Connecting the transactions from i on.
  ghost function ConnectedFrom(b: Block, i: nat, m: Utxo): Utxo
    requires i <= |b.vtx|
    decreases |b.vtx| - i
  {
    if i == |b.vtx| then m else ConnectedFrom(b, i + 1, Connect(b.vtx[i], b.height, m))
  }

  lemma {:induction false} FromStart(b: Block, i: nat, m: Utxo)
    requires i <= |b.vtx|
    ensures ConnectedFrom(b, i, Connected(b, i, m)) == Connected(b, |b.vtx|, m)
    decreases |b.vtx| - i
  {
    if i < |b.vtx| {
      FromStart(b, i + 1, m);
    }
  }

  lemma {:induction false} OutputsBack(tx: Tx, n: nat, height: nat, m: Utxo)
    requires n <= |tx.vout|
    ensures forall o: OutPoint :: o in WithOutputs(tx, n, height, m) <==> o in m || IsOutput(tx, n, o)
    ensures forall o: OutPoint :: o in WithOutputs(tx, n, height, m) ==>
              WithOutputs(tx, n, height, m)[o] ==
              if IsOutput(tx, n, o) then Coin(tx.vout[o.n], tx.coinbase, height) else m[o]
  {
    if n > 0 {
      OutputsBack(tx, n - 1, height, m);
    }
  }

  lemma {:induction false} InputsAgain(vin: seq<OutPoint>, undo: seq<Coin>, j: nat, m: Utxo)
    requires j <= |vin| == |undo| && RestoresClean(vin, undo, j, m)
    ensures Restored(vin, undo, j, m) - Inputs(vin[j..]) == m
    decreases |vin| - j
  {
    if j == |vin| {
      assert Inputs(vin[j..]) == {};
    } else {
      InputsAgain(vin, undo, j + 1, m);
      var r := Restored(vin, undo, j + 1, m);
      assert vin[j..] == [vin[j]] + vin[j + 1..];
      assert Inputs(vin[j..]) == {vin[j]} + Inputs(vin[j + 1..]);
      assert Restored(vin, undo, j, m) - {vin[j]} == r;
      assert Restored(vin, undo, j, m) - Inputs(vin[j..]) == r - Inputs(vin[j + 1..]);
    }
  }

  lemma ConnectsBack(b: Block, i: nat, m: Utxo)
    requires UndoFits(b) && CoinbaseFirst(b) && i < |b.vtx| && DisconnectsClean(b, i, m, true)
    ensures Connect(b.vtx[i], b.height, Disconnect(b, i, m)) == m
  {
    hide WithOutputs, Restored, RestoresClean;
    var t := b.vtx[i];
    var m1 := WithoutOutputs(t.tx, |t.tx.vout|, m);
    if i > 0 {
      InputsAgain(t.vin, b.undo[i - 1], 0, m1);
      assert t.vin[0..] == t.vin;
    }
    OutputsBack(t.tx, |t.tx.vout|, b.height, m1);
  }

  // What is disconnected without complaint is connected again back to where it was.
  lemma {:induction false} CleanComesBack(b: Block, i: nat, m: Utxo)
    requires UndoFits(b) && CoinbaseFirst(b) && i <= |b.vtx| && AllClean(b, i, m, true)
    ensures ConnectedFrom(b, i, Disconnected(b, i, m)) == m
    decreases |b.vtx| - i
  {
    hide Connect, Disconnect, DisconnectsClean;
    if i < |b.vtx| {
      CleanComesBack(b, i + 1, m);
      ConnectsBack(b, i, Disconnected(b, i + 1, m));
    }
  }

  lemma DisconnectThenConnect(b: Block, m: Utxo)
    requires UndoFits(b) && CoinbaseFirst(b) && AllClean(b, 0, m, true)
    ensures Connected(b, |b.vtx|, Disconnected(b, 0, m)) == m
  {
    CleanComesBack(b, 0, m);
    FromStart(b, 0, Disconnected(b, 0, m));
  }

  // What validation makes sure of: the inputs of every transaction are different unspent coins,
  // which the undo data records, and its outputs are new.
  ghost predicate Connectable(b: Block, i: nat, m: Utxo)
    requires UndoFits(b) && i < |b.vtx|
  {
    var t := b.vtx[i];
    && (forall o: OutPoint :: IsOutput(t.tx, |t.tx.vout|, o) ==> o !in m || (i > 0 && o in t.vin))
    && (i > 0 ==> Spendable(t.vin, b.undo[i - 1], m))
  }

  ghost predicate Spendable(vin: seq<OutPoint>, undo: seq<Coin>, m: Utxo)
    requires |vin| == |undo|
  {
    && (forall j, k :: 0 <= j < k < |vin| ==> vin[j] != vin[k])
    && (forall j :: 0 <= j < |vin| ==>
        vin[j] in m && m[vin[j]] == undo[j] && !IsUnspendable(undo[j].out.scriptPubKey))
  }

  ghost predicate AllConnectable(b: Block, n: nat, m: Utxo)
    requires UndoFits(b) && n <= |b.vtx|
  {
    n == 0 || (AllConnectable(b, n - 1, m) && Connectable(b, n - 1, Connected(b, n - 1, m)))
  }

  lemma {:induction false} RestoresExactly(vin: seq<OutPoint>, undo: seq<Coin>, j: nat, m: Utxo)
    requires j <= |vin| == |undo| && Spendable(vin, undo, m)
    ensures var m1 := m - Inputs(vin);
            && RestoresClean(vin, undo, j, m1)
            && Restored(vin, undo, j, m1) == m - Inputs(vin[..j])
    decreases |vin| - j
  {
    if j == |vin| {
      assert vin[..j] == vin;
    } else {
      RestoresExactly(vin, undo, j + 1, m);
      assert vin[..j + 1] == vin[..j] + [vin[j]];
      assert Inputs(vin[..j + 1]) == Inputs(vin[..j]) + {vin[j]};
      assert vin[j] !in vin[..j];
    }
  }

  lemma DisconnectsBack(b: Block, i: nat, m: Utxo, enforceBip30: bool)
    requires UndoFits(b) && CoinbaseFirst(b) && i < |b.vtx| && Connectable(b, i, m)
    ensures var m' := Connect(b.vtx[i], b.height, m);
            DisconnectsClean(b, i, m', enforceBip30) && Disconnect(b, i, m') == m
  {
    hide WithOutputs, Restored, RestoresClean;
    var t := b.vtx[i];
    var m1 := if i == 0 then m else m - Inputs(t.vin);
    OutputsBack(t.tx, |t.tx.vout|, b.height, m1);
    assert WithoutOutputs(t.tx, |t.tx.vout|, Connect(t, b.height, m)) == m1;
    if i > 0 {
      RestoresExactly(t.vin, b.undo[i - 1], 0, m);
      assert Inputs(t.vin[..0]) == {};
    }
  }

  // A connectable block, once connected, is disconnected without complaint, back to where it was.
  lemma {:induction false} ConnectedComesBack(b: Block, n: nat, m: Utxo, enforceBip30: bool)
    requires UndoFits(b) && CoinbaseFirst(b) && n <= |b.vtx| && AllConnectable(b, |b.vtx|, m)
    ensures AllClean(b, n, Connected(b, |b.vtx|, m), enforceBip30)
    ensures Disconnected(b, n, Connected(b, |b.vtx|, m)) == Connected(b, n, m)
    decreases |b.vtx| - n
  {
    hide Connect, Disconnect, DisconnectsClean, Connectable;
    if n < |b.vtx| {
      ConnectedComesBack(b, n + 1, m, enforceBip30);
      ConnectableAt(b, n, |b.vtx|, m);
      DisconnectsBack(b, n, Connected(b, n, m), enforceBip30);
    }
  }

  lemma {:induction false} ConnectableAt(b: Block, i: nat, n: nat, m: Utxo)
    requires UndoFits(b) && i < n <= |b.vtx| && AllConnectable(b, n, m)
    ensures Connectable(b, i, Connected(b, i, m))
  {
    if i < n - 1 {
      ConnectableAt(b, i, n - 1, m);
    }
  }

  // ---- finishing an interrupted write-back ----

  // From m and n the same coins were written: at every outpoint the results agree or nothing was done.
  ghost predicate Rewrites(m: Utxo, n: Utxo, m': Utxo, n': Utxo) {
    forall o :: SameAt(m', n', o) || (SameAt(m, m', o) && SameAt(n, n', o))
  }

  lemma RewritesThen(m: Utxo, n: Utxo, m1: Utxo, n1: Utxo, m2: Utxo, n2: Utxo)
    requires Rewrites(m, n, m1, n1) && Rewrites(m1, n1, m2, n2)
    ensures Rewrites(m, n, m2, n2)
  {
    forall o ensures SameAt(m2, n2, o) || (SameAt(m, m2, o) && SameAt(n, n2, o)) {
      assert SameAt(m1, n1, o) || (SameAt(m, m1, o) && SameAt(n, n1, o));
    }
  }

  lemma SameEverywhere(m: Utxo, n: Utxo)
    requires forall o :: SameAt(m, n, o)
    ensures m == n
  {
    forall o ensures (o in m <==> o in n) && (o in m ==> m[o] == n[o]) {
      assert SameAt(m, n, o);
    }
  }

  // Writing again over a mixture of old and new gives the new.
  lemma Redo(m: Utxo, a: Utxo, m': Utxo, a': Utxo)
    requires Rewrites(m, a, m', a') && Mixed(m, a, a')
    ensures m' == a'
  {
    forall o ensures SameAt(m', a', o) {
      assert SameAt(m, a, o) || SameAt(m, a', o);
    }
    SameEverywhere(m', a');
  }

  lemma {:induction false} RestoredRewrites(vin: seq<OutPoint>, undo: seq<Coin>, j: nat, m: Utxo, n: Utxo)
    requires j <= |vin| == |undo|
    ensures Rewrites(m, n, Restored(vin, undo, j, m), Restored(vin, undo, j, n))
    decreases |vin| - j
  {
    if j < |vin| {
      RestoredRewrites(vin, undo, j + 1, m, n);
      var m1, n1 := Restored(vin, undo, j + 1, m), Restored(vin, undo, j + 1, n);
      RewritesThen(m, n, m1, n1, Restored(vin, undo, j, m), Restored(vin, undo, j, n));
    }
  }

  lemma DisconnectRewrites(b: Block, i: nat, m: Utxo, n: Utxo)
    requires UndoFits(b) && i < |b.vtx|
    ensures Rewrites(m, n, Disconnect(b, i, m), Disconnect(b, i, n))
  {
    var t := b.vtx[i];
    var m1, n1 := WithoutOutputs(t.tx, |t.tx.vout|, m), WithoutOutputs(t.tx, |t.tx.vout|, n);
    assert Rewrites(m, n, m1, n1);
    if i > 0 {
      RestoredRewrites(t.vin, b.undo[i - 1], 0, m1, n1);
      RewritesThen(m, n, m1, n1, Disconnect(b, i, m), Disconnect(b, i, n));
    }
  }

  lemma {:induction false} DisconnectedRewrites(b: Block, i: nat, m: Utxo, n: Utxo)
    requires UndoFits(b) && i <= |b.vtx|
    ensures Rewrites(m, n, Disconnected(b, i, m), Disconnected(b, i, n))
    decreases |b.vtx| - i
  {
    if i < |b.vtx| {
      hide Disconnect, Rewrites;
      DisconnectedRewrites(b, i + 1, m, n);
      var m1, n1 := Disconnected(b, i + 1, m), Disconnected(b, i + 1, n);
      DisconnectRewrites(b, i, m1, n1);
      RewritesThen(m, n, m1, n1, Disconnected(b, i, m), Disconnected(b, i, n));
    }
  }

  lemma ConnectRewrites(t: BlockTx, height: nat, m: Utxo, n: Utxo)
    ensures Rewrites(m, n, Connect(t, height, m), Connect(t, height, n))
  {
    hide WithOutputs;
    var m1, n1 := if t.tx.coinbase then m else m - Inputs(t.vin), if t.tx.coinbase then n else n - Inputs(t.vin);
    OutputsBack(t.tx, |t.tx.vout|, height, m1);
    OutputsBack(t.tx, |t.tx.vout|, height, n1);
  }

  lemma {:induction false} ConnectedRewrites(b: Block, k: nat, m: Utxo, n: Utxo)
    requires k <= |b.vtx|
    ensures Rewrites(m, n, Connected(b, k, m), Connected(b, k, n))
  {
    if k > 0 {
      hide Connect, Rewrites;
      ConnectedRewrites(b, k - 1, m, n);
      var m1, n1 := Connected(b, k - 1, m), Connected(b, k - 1, n);
      ConnectRewrites(b.vtx[k - 1], b.height, m1, n1);
      RewritesThen(m, n, m1, n1, Connected(b, k, m), Connected(b, k, n));
    }
  }

  ghost predicate Fit(blocks: seq<Block>) {
    forall i :: 0 <= i < |blocks| ==> UndoFits(blocks[i])
  }

  // Blocks are taken off the old branch; the genesis block is left alone.
  ghost function RolledBack(blocks: seq<Block>, k: nat, m: Utxo): Utxo
    requires k <= |blocks| && Fit(blocks)
  {
    if k == 0 then m else
      var before := RolledBack(blocks, k - 1, m);
      if blocks[k - 1].height == 0 then before else Disconnected(blocks[k - 1], 0, before)
  }

  ghost function RolledForward(blocks: seq<Block>, k: nat, m: Utxo): Utxo
    requires k <= |blocks|
  {
    if k == 0 then m else
      Connected(blocks[k - 1], |blocks[k - 1].vtx|, RolledForward(blocks, k - 1, m))
  }

  ghost function Moved(back: seq<Block>, forth: seq<Block>, m: Utxo): Utxo
    requires Fit(back)
  {
    RolledForward(forth, |forth|, RolledBack(back, |back|, m))
  }

  lemma RolledBackNext(blocks: seq<Block>, k: nat, m: Utxo)
    requires k <= |blocks| && Fit(blocks)
    ensures k == 0 ==> RolledBack(blocks, k, m) == m
    ensures k > 0 && blocks[k - 1].height > 0 ==>
              && UndoFits(blocks[k - 1])
              && RolledBack(blocks, k, m) == Disconnected(blocks[k - 1], 0, RolledBack(blocks, k - 1, m))
  {
    hide Disconnected, UndoFits;
  }

  // The coins of a branch on the coins f of its fork, its blocks given from the tip down: those
  // when the blocks from k on are connected.
  ghost function OnBranch(blocks: seq<Block>, k: nat, f: Utxo): Utxo
    requires k <= |blocks|
    decreases |blocks| - k
  {
    if k == |blocks| then f else Connected(blocks[k], |blocks[k].vtx|, OnBranch(blocks, k + 1, f))
  }

  // Each block was connectable where it was connected.
  ghost predicate BranchOk(blocks: seq<Block>, f: Utxo) {
    forall k :: 0 <= k < |blocks| ==>
      && blocks[k].height > 0 && UndoFits(blocks[k]) && CoinbaseFirst(blocks[k])
      && AllConnectable(blocks[k], |blocks[k].vtx|, OnBranch(blocks, k + 1, f))
  }

  lemma BranchFits(blocks: seq<Block>, f: Utxo)
    requires BranchOk(blocks, f)
    ensures Fit(blocks)
  {
    hide UndoFits, CoinbaseFirst, AllConnectable, OnBranch;
  }

  // Disconnecting one block of a branch.
  lemma OneBack(blocks: seq<Block>, k: nat, f: Utxo)
    requires k < |blocks| && BranchOk(blocks, f)
    ensures blocks[k].height > 0 && UndoFits(blocks[k])
    ensures Disconnected(blocks[k], 0, OnBranch(blocks, k, f)) == OnBranch(blocks, k + 1, f)
  {
    hide UndoFits, CoinbaseFirst, AllConnectable, Connected, Disconnected;
    var b, m := blocks[k], OnBranch(blocks, k + 1, f);
    assert UndoFits(b) && CoinbaseFirst(b) && AllConnectable(b, |b.vtx|, m);
    hide BranchOk;
    ConnectedComesBack(b, 0, m, true);
    NoneConnected(b, m);
  }

  // Rolling a branch back leads to the coins of its fork.
  lemma {:induction false} BackToFork(blocks: seq<Block>, k: nat, f: Utxo)
    requires k <= |blocks| && BranchOk(blocks, f)
    ensures Fit(blocks) && RolledBack(blocks, k, OnBranch(blocks, 0, f)) == OnBranch(blocks, k, f)
  {
    hide *;
    BranchFits(blocks, f);
    RolledBackNext(blocks, k, OnBranch(blocks, 0, f));
    if k > 0 {
      BackToFork(blocks, k - 1, f);
      OneBack(blocks, k - 1, f);
    }
  }

  lemma NoneConnected(b: Block, m: Utxo)
    ensures Connected(b, 0, m) == m
  {}

  // From the tip of one branch to the tip of the other.
  lemma MovedToBranch(back: seq<Block>, forth: seq<Block>, f: Utxo)
    requires BranchOk(back, f)
    ensures Fit(back) && Moved(back, forth, OnBranch(back, 0, f)) == RolledForward(forth, |forth|, f)
  {
    BackToFork(back, |back|, f);
  }

  lemma {:induction false} RolledBackRewrites(blocks: seq<Block>, k: nat, m: Utxo, n: Utxo)
    requires k <= |blocks| && Fit(blocks)
    ensures Rewrites(m, n, RolledBack(blocks, k, m), RolledBack(blocks, k, n))
  {
    if k > 0 {
      hide Disconnected, Rewrites;
      RolledBackRewrites(blocks, k - 1, m, n);
      var m1, n1 := RolledBack(blocks, k - 1, m), RolledBack(blocks, k - 1, n);
      if blocks[k - 1].height != 0 {
        DisconnectedRewrites(blocks[k - 1], 0, m1, n1);
        RewritesThen(m, n, m1, n1, RolledBack(blocks, k, m), RolledBack(blocks, k, n));
      }
    }
  }

  lemma {:induction false} RolledForwardRewrites(blocks: seq<Block>, k: nat, m: Utxo, n: Utxo)
    requires k <= |blocks|
    ensures Rewrites(m, n, RolledForward(blocks, k, m), RolledForward(blocks, k, n))
  {
    if k > 0 {
      hide Connected, Rewrites;
      RolledForwardRewrites(blocks, k - 1, m, n);
      var m1, n1 := RolledForward(blocks, k - 1, m), RolledForward(blocks, k - 1, n);
      ConnectedRewrites(blocks[k - 1], |blocks[k - 1].vtx|, m1, n1);
      RewritesThen(m, n, m1, n1, RolledForward(blocks, k, m), RolledForward(blocks, k, n));
    }
  }

  // Replaying the blocks over any mixture of the coins before and after gives those after.
  lemma ReplayedOverMixture(back: seq<Block>, forth: seq<Block>, m: Utxo, a: Utxo)
    requires Fit(back)
    requires Mixed(m, a, Moved(back, forth, a))
    ensures Moved(back, forth, m) == Moved(back, forth, a)
  {
    hide RolledBack, RolledForward, Rewrites;
    var m1, a1 := RolledBack(back, |back|, m), RolledBack(back, |back|, a);
    RolledBackRewrites(back, |back|, m, a);
    RolledForwardRewrites(forth, |forth|, m1, a1);
    RewritesThen(m, a, m1, a1, Moved(back, forth, m), Moved(back, forth, a));
    Redo(m, a, Moved(back, forth, m), Moved(back, forth, a));
  }

  // Connecting and disconnecting never leaves a spent coin behind.
  lemma {:induction false} RestoredUnspent(vin: seq<OutPoint>, undo: seq<Coin>, j: nat, m: Utxo)
    requires j <= |vin| == |undo| && NoSpent(m) && forall k :: 0 <= k < |undo| ==> !undo[k].IsSpent()
    ensures NoSpent(Restored(vin, undo, j, m))
    decreases |vin| - j
  {
    if j < |vin| {
      RestoredUnspent(vin, undo, j + 1, m);
    }
  }

  lemma {:induction false} DisconnectedUnspent(b: Block, i: nat, m: Utxo)
    requires UndoFits(b) && Real(b) && NoSpent(m) && i <= |b.vtx|
    ensures NoSpent(Disconnected(b, i, m))
    decreases |b.vtx| - i
  {
    if i < |b.vtx| {
      DisconnectedUnspent(b, i + 1, m);
      var t := b.vtx[i];
      var m1 := WithoutOutputs(t.tx, |t.tx.vout|, Disconnected(b, i + 1, m));
      assert NoSpent(m1);
      if i > 0 {
        RestoredUnspent(t.vin, b.undo[i - 1], 0, m1);
      }
    }
  }

  lemma {:induction false} ConnectedUnspent(b: Block, n: nat, m: Utxo)
    requires Real(b) && NoSpent(m) && n <= |b.vtx|
    ensures NoSpent(Connected(b, n, m))
  {
    if n > 0 {
      ConnectedUnspent(b, n - 1, m);
      var t := b.vtx[n - 1];
      var m1 := Connected(b, n - 1, m);
      OutputsBack(t.tx, |t.tx.vout|, b.height, if t.tx.coinbase then m1 else m1 - Inputs(t.vin));
    }
  }

  lemma {:induction false} RolledBackUnspent(blocks: seq<Block>, k: nat, m: Utxo)
    requires k <= |blocks| && Fit(blocks) && AllReal(blocks) && NoSpent(m)
    ensures NoSpent(RolledBack(blocks, k, m))
  {
    if k > 0 {
      hide Disconnected, NoSpent;
      RolledBackUnspent(blocks, k - 1, m);
      DisconnectedUnspent(blocks[k - 1], 0, RolledBack(blocks, k - 1, m));
    }
  }

  lemma {:induction false} RolledForwardUnspent(blocks: seq<Block>, k: nat, m: Utxo)
    requires k <= |blocks| && AllReal(blocks) && NoSpent(m)
    ensures NoSpent(RolledForward(blocks, k, m))
  {
    if k > 0 {
      hide Connected, NoSpent;
      RolledForwardUnspent(blocks, k - 1, m);
      ConnectedUnspent(blocks[k - 1], |blocks[k - 1].vtx|, RolledForward(blocks, k - 1, m));
    }
  }

  lemma MixtureUnspent(m: Utxo, back: seq<Block>, forth: seq<Block>, a: Utxo)
    requires Fit(back) && AllReal(back) && AllReal(forth) && NoSpent(a) && Mixed(m, a, Moved(back, forth, a))
    ensures NoSpent(m)
  {
    RolledBackUnspent(back, |back|, a);
    RolledForwardUnspent(forth, |forth|, RolledBack(back, |back|, a));
    forall o | o in m ensures !m[o].IsSpent() {
      assert SameAt(m, a, o) || SameAt(m, Moved(back, forth, a), o);
    }
  }

  lemma MixedFurther(d: Utxo, m: Utxo, a: Utxo, b: Utxo)
    requires Mixed(m, a, b) && Mixed(d, m, b)
    ensures Mixed(d, a, b)
  {
    forall o ensures SameAt(d, a, o) || SameAt(d, b, o) {
      assert SameAt(d, m, o) || SameAt(d, b, o);
      assert SameAt(m, a, o) || SameAt(m, b, o);
    }
  }

  // What disconnecting a block needs.
  ghost predicate Usable(blocks: seq<Block>) {
    Fit(blocks) && forall i :: 0 <= i < |blocks| ==> HeightsKnown(blocks[i])
  }

  ghost predicate AllReal(blocks: seq<Block>) {
    forall i :: 0 <= i < |blocks| ==> Real(blocks[i])
  }

  method RollBack(blocks: seq<Block>, view: CoinsCache, enforceBip30: seq<bool>) returns (ok: bool)
    requires view.Valid() && AllReal(blocks) && |enforceBip30| == |blocks|
    modifies view.Repr
    ensures view.Valid() && unchanged(view.db) && view.ParentView() == old(view.ParentView())
    ensures Usable(blocks) ==> ok && view.Visible() == RolledBack(blocks, |blocks|, old(view.Visible()))
    ensures ok ==> forall i :: 0 <= i < |blocks| && blocks[i].height > 0 ==> UndoFits(blocks[i])
  {
    hide Disconnected, Real, UndoFits, CacheOk, NoSpent, UsageSum, CoinsCache.Structure, CoinsCache.ParentView,
         CoinsCache.Visible;
    for k := 0 to |blocks|
      invariant view.Valid() && unchanged(view.db) && view.ParentView() == old(view.ParentView())
      invariant Usable(blocks) ==> view.Visible() == RolledBack(blocks, k, old(view.Visible()))
      invariant forall i :: 0 <= i < k && blocks[i].height > 0 ==> UndoFits(blocks[i])
    {
      if blocks[k].height > 0 {
        var res := DisconnectBlock(blocks[k], view, enforceBip30[k]);
        if res == DISCONNECT_FAILED {
          return false;
        }
      }
    }
    ok := true;
  }

  method RollForward(blocks: seq<Block>, view: CoinsCache)
    requires view.Valid() && AllReal(blocks)
    modifies view.Repr
    ensures view.Valid() && unchanged(view.db) && view.ParentView() == old(view.ParentView())
    ensures view.Visible() == RolledForward(blocks, |blocks|, old(view.Visible()))
  {
    hide Connected, Real, CacheOk, NoSpent, UsageSum, CoinsCache.Structure, CoinsCache.ParentView, CoinsCache.Visible;
    for k := 0 to |blocks|
      invariant view.Valid() && unchanged(view.db) && view.ParentView() == old(view.ParentView())
      invariant view.Visible() == RolledForward(blocks, k, old(view.Visible()))
    {
      RollforwardBlock(blocks[k], view);
    }
  }

  // At start-up: `back` are the blocks from the old tip down to the fork, `forth` those from the
  // fork up to the new tip.
  method ReplayBlocks(db: CoinsDb, back: seq<Block>, forth: seq<Block>, enforceBip30: seq<bool>)
    returns (ok: bool, ghost cuts: seq<Disk>)
    requires NoSpent(db.coins) && AllReal(back) && AllReal(forth) && |enforceBip30| == |back|
    requires db.headBlocks.Some? ==> db.bestBlock == NO_BLOCK && db.headBlocks.value.0 != NO_BLOCK
    modifies db
    ensures Usable(back) ==> ok
    ensures old(db.headBlocks) == None ==> ok
    ensures old(db.headBlocks) == None || !ok ==> unchanged(db) && cuts == []
    ensures old(db.headBlocks).Some? && ok ==>
              forall i :: 0 <= i < |back| && back[i].height > 0 ==> UndoFits(back[i])
    ensures old(db.headBlocks).Some? && ok ==> db.log == old(db.log) + cuts + [db.OnDisk()]
    ensures old(db.headBlocks).Some? && Usable(back) ==>
              var heads := old(db.headBlocks).value; var coins := Moved(back, forth, old(db.coins));
              && db.OnDisk() == Disk(coins, heads.0, None)
              && forall k :: 0 <= k < |cuts| ==> OnTheWay(cuts[k], heads.0, heads.1, old(db.coins), coins)
    ensures old(db.headBlocks).Some? && Usable(back) ==>
              forall f :: BranchOk(back, f) && OnBranch(back, 0, f) == old(db.coins) ==>
                db.coins == RolledForward(forth, |forth|, f)
  {
    hide RolledBack, RolledForward, Usable, Fit, AllReal, OnTheWay, NoSpent, CacheOk, BranchOk, OnBranch;
    forall f | BranchOk(back, f) && OnBranch(back, 0, f) == db.coins
      ensures Fit(back) && Moved(back, forth, db.coins) == RolledForward(forth, |forth|, f)
    {
      MovedToBranch(back, forth, f);
    }
    cuts := [];
    if db.headBlocks == None {
      return true, [];
    }
    var to := db.headBlocks.value.0;
    var cache := new CoinsCache.OverDb(db);
    ok := RollBack(back, cache, enforceBip30);
    if ok {
      RollForward(forth, cache);
      cache.SetBestBlock(to);
      cuts := cache.Flush();
    }
  }

  // If the coins on disk are a mixture of those of the old tip, `a`, and those of the new, replaying
  // finishes the write-back; and if that is interrupted too, the same call finishes it the next time.
  method FinishInterrupted(db: CoinsDb, back: seq<Block>, forth: seq<Block>, enforceBip30: seq<bool>, ghost a: Utxo,
                           to: Hash, from: Hash)
    returns (ghost cuts: seq<Disk>)
    requires NoSpent(a) && AllReal(back) && AllReal(forth) && Usable(back) && |enforceBip30| == |back|
    requires to != NO_BLOCK && OnTheWay(db.OnDisk(), to, from, a, Moved(back, forth, a))
    modifies db
    ensures db.OnDisk() == Disk(Moved(back, forth, a), to, None) && db.log == old(db.log) + cuts + [db.OnDisk()]
    ensures forall k :: 0 <= k < |cuts| ==> OnTheWay(cuts[k], to, from, a, Moved(back, forth, a))
  {
    hide Moved, Mixed, NoSpent, AllReal, Fit;
    ReplayedOverMixture(back, forth, db.coins, a);
    MixtureUnspent(db.coins, back, forth, a);
    var ok;
    ok, cuts := ReplayBlocks(db, back, forth, enforceBip30);
    forall k | 0 <= k < |cuts| ensures Mixed(cuts[k].coins, a, Moved(back, forth, a)) {
      MixedFurther(cuts[k].coins, old(db.coins), a, Moved(back, forth, a));
    }
  }

  lemma {:induction false} OnBranchUnspent(blocks: seq<Block>, k: nat, f: Utxo)
    requires k <= |blocks| && AllReal(blocks) && NoSpent(f)
    ensures NoSpent(OnBranch(blocks, k, f))
    decreases |blocks| - k
  {
    if k < |blocks| {
      hide Connected, NoSpent;
      OnBranchUnspent(blocks, k + 1, f);
      ConnectedUnspent(blocks[k], |blocks[k].vtx|, OnBranch(blocks, k + 1, f));
    }
  }

  // A write-back from one branch to another over the coins f of their fork, interrupted anywhere and
  // any number of times: the disk ends with exactly the new branch connected on the fork.
  method FinishReorganization(db: CoinsDb, back: seq<Block>, forth: seq<Block>, enforceBip30: seq<bool>, ghost f: Utxo,
                              to: Hash, from: Hash)
    returns (ghost cuts: seq<Disk>)
    requires NoSpent(f) && AllReal(back) && AllReal(forth) && Usable(back) && |enforceBip30| == |back|
    requires BranchOk(back, f) && to != NO_BLOCK
    requires OnTheWay(db.OnDisk(), to, from, OnBranch(back, 0, f), RolledForward(forth, |forth|, f))
    modifies db
    ensures db.OnDisk() == Disk(RolledForward(forth, |forth|, f), to, None)
    ensures db.log == old(db.log) + cuts + [db.OnDisk()]
    ensures forall k :: 0 <= k < |cuts| ==>
              OnTheWay(cuts[k], to, from, OnBranch(back, 0, f), RolledForward(forth, |forth|, f))
  {
    hide RolledForward, Moved, OnTheWay, NoSpent, AllReal, BranchOk, OnBranch;
    MovedToBranch(back, forth, f);
    OnBranchUnspent(back, 0, f);
    cuts := FinishInterrupted(db, back, forth, enforceBip30, OnBranch(back, 0, f), to, from);
  }
}
