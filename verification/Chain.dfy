/** The block index: a tree of blocks with a back pointer and a skip pointer each,
    and the active chain as a vector of blocks. */
module Chain {
  import opened Basics
  import opened Limbs
  import opened SkipList

  class BlockIndex {
    const hash: nat
    var pprev: BlockIndex?
    var pskip: BlockIndex?
    var nHeight: int
    ghost var path: seq<BlockIndex>  // the blocks from genesis to this one

    // Links and height of this block fit its path.
    ghost predicate Local()
      reads this
    {
      && nHeight >= 0 && |path| == nHeight + 1 && path[nHeight] == this
      && (nHeight == 0 ==> pprev == null && pskip == null)
      && (nHeight > 0 ==> pprev == path[nHeight - 1])
      && (pskip != null ==> pskip == path[GetSkipHeight(nHeight)])
    }

    ghost predicate Valid()
      reads this, path
    {
      && Local()
      && forall i :: 0 <= i < |path| ==> path[i].Local() && path[i].path == path[..i + 1]
    }

    lemma Shape()
      requires Valid()
      ensures nHeight >= 0 && |path| == nHeight + 1 && path[nHeight] == this
    {}

    // A block of the path is as valid, its path is the beginning of this one, and its
    // links lead to blocks of the path.
    lemma OnPath(i: int)
      requires Valid() && 0 <= i < |path|
      ensures path[i].Valid() && path[i].nHeight == i && path[i].path == path[..i + 1]
      ensures path[i].pprev == if i == 0 then null else path[i - 1]
      ensures path[i].pskip != null ==> i > 0 && path[i].pskip == path[GetSkipHeight(i)]
    {
      var b := path[i];
      assert b.Local() && b.path == path[..i + 1];
      forall j | 0 <= j < |b.path| ensures b.path[j].Local() && b.path[j].path == b.path[..j + 1] {
        assert b.path[j] == path[j];
        assert path[j].path == path[..j + 1] == b.path[..j + 1];
      }
    }

    constructor Genesis(hash: nat)
      ensures Valid() && path == [this] && this.hash == hash
    {
      this.hash := hash;
      pprev, pskip, nHeight := null, null, 0;
      path := [this];
    }

    // A block on top of another, before BuildSkip.
    constructor On(prev: BlockIndex, hash: nat)
      requires prev.Valid()
      ensures Valid() && path == prev.path + [this] && pprev == prev && pskip == null && this.hash == hash
    {
      this.hash := hash;
      pprev, pskip, nHeight := prev, null, prev.nHeight + 1;
      path := prev.path + [this];
      new;
      forall i | 0 <= i < |path| ensures path[i].Local() && path[i].path == path[..i + 1] {
        if i < |prev.path| {
          assert path[i] == prev.path[i];
          assert path[..i + 1] == prev.path[..i + 1];
        } else {
          assert path[..i + 1] == path;
        }
      }
    }

    // Every block of the path but genesis has its skip pointer.
    ghost predicate SkipsSet()
      reads this, path
    {
      forall i :: 0 < i < |path| ==> path[i].pskip != null
    }

    // `steps` counts the pointers followed.
    method GetAncestor(height: int) returns (r: BlockIndex?, ghost steps: nat)
      requires Valid()
      ensures r == if 0 <= height <= nHeight then path[height] else null
      ensures 0 <= height <= nHeight ==> r == Walk(this, nHeight - height)
      ensures 0 <= height <= nHeight && SkipsSet() ==> steps == WalkLength(nHeight, height)
    {
      hide Valid, Walk, GetSkipHeight;
      Shape();
      steps := 0;
      if height > nHeight || height < 0 {
        return null, 0;
      }
      var walk: BlockIndex := this;
      var heightWalk := nHeight;
      while heightWalk > height
        invariant height <= heightWalk <= nHeight && walk == path[heightWalk]
        invariant SkipsSet() ==> steps + WalkLength(heightWalk, height) == WalkLength(nHeight, height)
      {
        steps := steps + 1;
        OnPath(heightWalk);
        var heightSkip := GetSkipHeight(heightWalk);
        var heightSkipPrev := GetSkipHeight(heightWalk - 1);
        if walk.pskip != null &&
           (heightSkip == height
            || (heightSkip > height && !(heightSkipPrev < heightSkip - 2 && heightSkipPrev >= height))) {
          walk := walk.pskip;
          heightWalk := heightSkip;
        } else {
          assert walk.pprev != null;  // the assertion of the source holds
          walk := walk.pprev;
          heightWalk := heightWalk - 1;
        }
      }
      r := walk;
      WalkIsPath(this, nHeight - height);
    }

    method BuildSkip()
      requires Valid()
      modifies this`pskip
      ensures Valid() && path == old(path)
      ensures nHeight == 0 ==> pskip == old(pskip)
      ensures nHeight > 0 ==> pskip == path[GetSkipHeight(nHeight)]
    {
      hide Walk, GetSkipHeight, WalkLength, SkipsSet;
      if pprev != null {
        var skip := SkipTarget();
        forall i | 0 <= i < nHeight ensures path[i] != this && path[i].Local() && path[i].path == path[..i + 1] {
          OnPath(i);
        }
        pskip := skip;
        assert forall i :: 0 <= i < nHeight ==> path[i].Local() && path[i].path == path[..i + 1];
        assert path[..nHeight + 1] == path;
      }
    }

    method SkipTarget() returns (skip: BlockIndex)
      requires Valid() && pprev != null
      ensures nHeight > 0 && skip == path[GetSkipHeight(nHeight)]
    {
      hide Walk, GetSkipHeight, WalkLength, SkipsSet;
      OnPath(nHeight - 1);
      var r, _ := pprev.GetAncestor(GetSkipHeight(nHeight));
      skip := r;
    }
  }

  // Following pprev n times.
  ghost function Walk(b: BlockIndex?, n: nat): BlockIndex?
    reads *
    decreases n
  {
    if n == 0 || b == null then b else Walk(b.pprev, n - 1)
  }

  // The path is what following pprev gives, so GetAncestor finds the same block as walking.
  lemma {:induction false} WalkIsPath(b: BlockIndex, n: nat)
    requires b.Valid() && n <= b.nHeight
    ensures Walk(b, n) == b.path[b.nHeight - n]
    decreases n
  {
    if n > 0 {
      b.OnPath(b.nHeight - 1);
      WalkIsPath(b.pprev, n - 1);
    }
  }

  // ---- common ancestors ----

  // The length of the common beginning of two paths.
  ghost function Common(a: seq<BlockIndex>, b: seq<BlockIndex>): (n: nat)
    ensures n <= |a| && n <= |b|
  {
    if a == [] || b == [] || a[0] != b[0] then 0 else 1 + Common(a[1..], b[1..])
  }

  lemma {:induction false} CommonFacts(a: seq<BlockIndex>, b: seq<BlockIndex>)
    ensures var n := Common(a, b); a[..n] == b[..n] && (n < |a| && n < |b| ==> a[n] != b[n])
  {
    if a != [] && b != [] && a[0] == b[0] {
      CommonFacts(a[1..], b[1..]);
      var n := Common(a[1..], b[1..]);
      assert a[..n + 1] == [a[0]] + a[1..][..n] && b[..n + 1] == [b[0]] + b[1..][..n];
    }
  }

  // Two paths that meet at a height agree below it.
  lemma MeetBelow(a: BlockIndex, b: BlockIndex, i: int)
    requires a.Valid() && b.Valid() && 0 <= i < |a.path| && i < |b.path|
    ensures a.path[i] == b.path[i] <==> i < Common(a.path, b.path)
  {
    var n := Common(a.path, b.path);
    CommonFacts(a.path, b.path);
    if i < n {
      assert a.path[..n][i] == b.path[..n][i];
    } else {
      a.OnPath(i);
      b.OnPath(i);
      assert a.path[n] == a.path[..i + 1][n] && b.path[n] == b.path[..i + 1][n];
    }
  }

  ghost function LastCommon(a: seq<BlockIndex>, b: seq<BlockIndex>): BlockIndex? {
    if Common(a, b) == 0 then null else a[Common(a, b) - 1]
  }

  // A block on both paths and above every other such block; none if there is no such block.
  ghost predicate IsLastShared(r: BlockIndex?, a: BlockIndex, b: BlockIndex)
    reads a, b, a.path, b.path
  {
    if r == null then forall x :: x in a.path ==> x !in b.path
    else r in a.path && r in b.path && forall x :: x in a.path && x in b.path ==> x.nHeight <= r.nHeight
  }

  lemma LastCommonIsLast(a: BlockIndex, b: BlockIndex)
    requires a.Valid() && b.Valid()
    ensures IsLastShared(LastCommon(a.path, b.path), a, b)
  {
    hide BlockIndex.Valid, Common;
    var n := Common(a.path, b.path);
    forall x | x in a.path && x in b.path ensures x.nHeight < n {
      var i :| 0 <= i < |a.path| && a.path[i] == x;
      var j :| 0 <= j < |b.path| && b.path[j] == x;
      a.OnPath(i);
      b.OnPath(j);
      MeetBelow(a, b, i);
    }
    if n > 0 {
      MeetBelow(a, b, n - 1);
      a.OnPath(n - 1);
      assert b.path[n - 1] in b.path;
    } else {
      forall x | x in a.path ensures x !in b.path {
        if x in b.path {
          var i :| 0 <= i < |a.path| && a.path[i] == x;
          a.OnPath(i);
        }
      }
    }
  }

  // The assertion at the end of the source's loop holds, also for unrelated trees.
  method LastCommonAncestor(pa0: BlockIndex, pb0: BlockIndex) returns (r: BlockIndex?)
    requires pa0.Valid() && pb0.Valid()
    ensures r == LastCommon(pa0.path, pb0.path) && IsLastShared(r, pa0, pb0)
  {
    hide BlockIndex.Valid, BlockIndex.SkipsSet, Common, Walk, WalkLength, IsLastShared;
    LastCommonIsLast(pa0, pb0);
    pa0.Shape();
    pb0.Shape();
    var pa: BlockIndex?, pb: BlockIndex? := pa0, pb0;
    if pa0.nHeight > pb0.nHeight {
      var up, _ := pa0.GetAncestor(pb0.nHeight);
      pa := up;
    } else if pb0.nHeight > pa0.nHeight {
      var up, _ := pb0.GetAncestor(pa0.nHeight);
      pb := up;
    }
    ghost var h := if pa0.nHeight < pb0.nHeight then pa0.nHeight else pb0.nHeight;
    while pa != pb && pa != null && pb != null
      invariant -1 <= h < |pa0.path| && h < |pb0.path|
      invariant pa == if h < 0 then null else pa0.path[h]
      invariant pb == if h < 0 then null else pb0.path[h]
      invariant Common(pa0.path, pb0.path) <= h + 1
      decreases h
    {
      MeetBelow(pa0, pb0, h);
      pa0.OnPath(h);
      pb0.OnPath(h);
      pa := pa.pprev;
      pb := pb.pprev;
      h := h - 1;
    }
    assert pa == pb;
    if h >= 0 {
      MeetBelow(pa0, pb0, h);
    }
    r := pa;
  }

  // ---- the active chain ----

  class ActiveChain {
    var vChain: seq<BlockIndex?>

    ghost var tip: BlockIndex?

    // The vector is the path of the tip.
    ghost predicate Valid()
      reads this, tip, if tip == null then [] else tip.path
    {
      if tip == null then vChain == [] else tip.Valid() && vChain == tip.path
    }

    constructor ()
      ensures Valid() && vChain == []
    {
      vChain, tip := [], null;
    }

    // The block at a height, if any.
    function At(height: int): BlockIndex?
      reads this
    {
      if 0 <= height < |vChain| then vChain[height] else null
    }

    predicate Contains(b: BlockIndex)
      reads this, b
    {
      At(b.nHeight) == b
    }

    method SetTip(block: BlockIndex)
      requires Valid() && block.Valid()
      modifies this
      ensures Valid() && tip == block && vChain == block.path
    {
      hide BlockIndex.Valid;
      block.Shape();
      var pindex: BlockIndex? := block;
      ghost var before := vChain;
      ghost var k := block.nHeight;
      vChain := if |vChain| > block.nHeight + 1 then vChain[..block.nHeight + 1]
                else vChain + seq(block.nHeight + 1 - |vChain|, _ => null);
      while pindex != null && vChain[pindex.nHeight] != pindex
        invariant -1 <= k <= block.nHeight && |vChain| == |block.path|
        invariant pindex == if k < 0 then null else block.path[k]
        invariant pindex != null ==> pindex.nHeight == k
        invariant forall i :: k < i < |vChain| ==> vChain[i] == block.path[i]
        invariant forall i :: 0 <= i <= k ==> vChain[i] == if i < |before| then before[i] else null
        invariant if tip == null then before == [] else tip.Valid() && before == tip.path
        decreases k
      {
        block.OnPath(k);
        vChain := vChain[pindex.nHeight := pindex];
        pindex := pindex.pprev;
        k := k - 1;
        if k >= 0 {
          block.OnPath(k);
        }
      }
      if k >= 0 {
        KnownBelow(before, tip, block, k);
      }
      assert vChain == block.path;
      tip := block;
    }

    // The last block of the active chain that is an ancestor of a block, or the block itself.
    method FindFork(pindex0: BlockIndex?) returns (r: BlockIndex?)
      requires Valid() && (pindex0 != null ==> pindex0.Valid())
      ensures pindex0 == null || tip == null ==> r == null
      ensures pindex0 != null && tip != null ==>
                r == LastCommon(pindex0.path, tip.path) && IsLastShared(r, pindex0, tip)
    {
      hide BlockIndex.Valid, BlockIndex.SkipsSet, Common, Walk, WalkLength, IsLastShared;
      if pindex0 != null && tip != null {
        LastCommonIsLast(pindex0, tip);
      }
      if pindex0 == null {
        return null;
      }
      pindex0.Shape();
      var pindex: BlockIndex? := pindex0;
      var height := |vChain| - 1;
      if pindex0.nHeight > height {
        var up, _ := pindex0.GetAncestor(height);
        pindex := up;
      }
      ghost var k := if pindex0.nHeight > height then height else pindex0.nHeight;
      if k >= 0 {
        pindex0.OnPath(k);
      }
      while pindex != null && !Contains(pindex)
        invariant -1 <= k <= pindex0.nHeight && k < |vChain|
        invariant pindex == if k < 0 then null else pindex0.path[k]
        invariant pindex != null ==> pindex.nHeight == k
        invariant tip != null ==> Common(pindex0.path, tip.path) <= k + 1
        decreases k
      {
        pindex0.OnPath(k);
        MeetBelow(pindex0, tip, k);
        pindex := pindex.pprev;
        k := k - 1;
        if k >= 0 {
          pindex0.OnPath(k);
        }
      }
      if k >= 0 {
        MeetBelow(pindex0, tip, k);
      }
      r := pindex;
    }
  }

  // Where the old vector holds a block of the new path, it holds the whole path below.
  lemma KnownBelow(before: seq<BlockIndex?>, tip: BlockIndex, block: BlockIndex, k: int)
    requires block.Valid() && 0 <= k < |block.path| && k < |before| && before[k] == block.path[k]
    requires tip.Valid() && before == tip.path
    ensures forall i :: 0 <= i <= k ==> before[i] == block.path[i]
  {
    tip.OnPath(k);
    block.OnPath(k);
    forall i | 0 <= i <= k ensures before[i] == block.path[i] {
      assert tip.path[..k + 1][i] == block.path[..k + 1][i];
    }
  }

  // ---- block locators ----

  // Distance from the k-th entry to the next: eleven single steps, then doubling.
  function LocatorStep(k: nat): (step: nat)
    ensures step >= 1
  {
    if k <= 10 then 1 else 2 * LocatorStep(k - 1)
  }

  // Heights from a block down to genesis, with growing gaps.
  ghost predicate LocatorHeights(hs: seq<int>, top: int) {
    && hs != [] && hs[0] == top && hs[|hs| - 1] == 0
    && (forall k :: 0 <= k < |hs| ==> 0 <= hs[k] <= top)
    && (forall k {:trigger LocatorStep(k)} :: 0 <= k < |hs| - 1 ==>
        hs[k] > 0 && hs[k + 1] == Max(hs[k] - LocatorStep(k), 0))
  }

  method LocatorEntries(index0: BlockIndex?) returns (have: seq<nat>, ghost heights: seq<int>)
    requires index0 != null ==> index0.Valid()
    ensures index0 == null ==> have == []
    ensures index0 != null ==> LocatorHeights(heights, index0.nHeight) && HashesAt(index0.path, heights, have)
    ensures |have| == |heights| && (index0 != null ==> |have| <= |index0.path|)
  {
    hide BlockIndex.Valid, Walk, Descending, LocatorHeights, HashesAt, LocatorStep, WalkLength;
    have, heights := [], [];
    if index0 == null {
      return;
    }
    index0.Shape();
    LocatorStart(index0.path, index0.nHeight);
    var step := 1;
    var index: BlockIndex := index0;
    while true
      invariant step == LocatorStep(|have|) && |heights| == |have|
      invariant 0 <= index.nHeight <= index0.nHeight && index == index0.path[index.nHeight]
      invariant |have| + index.nHeight <= index0.nHeight
      invariant Descending(heights, index0.nHeight, index.nHeight) && HashesAt(index0.path, heights, have)
      decreases index.nHeight
    {
      DescendingNext(heights, index0.nHeight, index.nHeight);
      HashesNext(index0.path, heights, have, index.nHeight);
      StepNext(|have|);
      have := have + [index.hash];
      heights := heights + [index.nHeight];
      if index.nHeight == 0 {
        break;
      }
      var height := Max(index.nHeight - step, 0);
      index0.OnPath(index.nHeight);
      var next, _ := index.GetAncestor(height);
      index0.OnPath(height);
      index := next;
      if |have| > 10 {
        step := step * 2;
      }
    }
  }

  // The hashes of the blocks at these heights.
  ghost predicate HashesAt(path: seq<BlockIndex>, heights: seq<int>, have: seq<nat>) {
    && |heights| == |have|
    && forall k :: 0 <= k < |have| ==> 0 <= heights[k] < |path| && have[k] == path[heights[k]].hash
  }

  lemma HashesNext(path: seq<BlockIndex>, heights: seq<int>, have: seq<nat>, height: int)
    requires HashesAt(path, heights, have) && 0 <= height < |path|
    ensures HashesAt(path, heights + [height], have + [path[height].hash])
  {}

  lemma LocatorStart(path: seq<BlockIndex>, top: int)
    requires top >= 0
    ensures Descending([], top, top) && HashesAt(path, [], []) && LocatorStep(0) == 1
  {}

  lemma StepNext(n: nat)
    ensures LocatorStep(n + 1) == if n + 1 > 10 then 2 * LocatorStep(n) else LocatorStep(n)
  {}

  ghost predicate Descending(hs: seq<int>, top: int, next: int) {
    && 0 <= next <= top
    && (hs == [] ==> next == top)
    && (hs != [] ==> hs[0] == top && next == Max(hs[|hs| - 1] - LocatorStep(|hs| - 1), 0))
    && (forall k :: 0 <= k < |hs| ==> 0 < hs[k] <= top)
    && (forall k {:trigger LocatorStep(k)} :: 0 <= k < |hs| - 1 ==> hs[k + 1] == Max(hs[k] - LocatorStep(k), 0))
  }

  lemma DescendingNext(hs: seq<int>, top: int, next: int)
    requires Descending(hs, top, next)
    ensures next == 0 ==> LocatorHeights(hs + [next], top)
    ensures next > 0 ==> Descending(hs + [next], top, Max(next - LocatorStep(|hs|), 0))
  {
    var hs' := hs + [next];
    forall k | 0 <= k < |hs'| - 1 ensures hs'[k] > 0 && hs'[k + 1] == Max(hs'[k] - LocatorStep(k), 0) {
      assert LocatorStep(k) >= 1;
    }
  }

  // A locator is short: its length is logarithmic in the height.
  lemma LocatorIsShort(hs: seq<int>, top: int)
    requires LocatorHeights(hs, top)
    ensures |hs| >= 3 ==> LocatorStep(|hs| - 3) < top
    ensures |hs| >= 13 ==> Pow2(|hs| - 13) < top
  {
    if |hs| >= 3 {
      var k := |hs| - 3;
      assert LocatorStep(k) >= 1 && LocatorStep(k + 1) >= 1;
      assert hs[k + 1] > 0 && hs[k + 1] == Max(hs[k] - LocatorStep(k), 0);
      if k >= 10 {
        LocatorStepGrows(k);
      }
    }
  }

  lemma {:induction false} LocatorStepGrows(k: nat)
    requires k >= 10
    ensures LocatorStep(k) == Pow2(k - 10)
  {
    if k > 10 {
      LocatorStepGrows(k - 1);
    }
  }
}
