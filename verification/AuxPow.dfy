/** Merged-mining proofs: a parent coinbase commits to a Merkle tree of auxiliary
    blocks, and each chain id has exactly one slot in that tree. */
module AuxPow {
  import opened Basics
  import opened Limbs
  import opened Congruence

  type Bytes = seq<Byte>
  type Uint256 = s: Bytes | |s| == 32
    witness [0, 0, 0, 0, 0, 0, 0, 0, 0, 0, 0, 0, 0, 0, 0, 0, 0, 0, 0, 0, 0, 0, 0, 0, 0, 0, 0, 0, 0, 0, 0, 0]
  type Uint32 = x: int | 0 <= x < 0x1_0000_0000

  const ZERO256: Uint256 :=
    [0, 0, 0, 0, 0, 0, 0, 0, 0, 0, 0, 0, 0, 0, 0, 0, 0, 0, 0, 0, 0, 0, 0, 0, 0, 0, 0, 0, 0, 0, 0, 0]
  const MERGED_MINING_HEADER: Bytes := [0xfa, 0xbe, 0x6d, 0x6d]

  // A transaction as far as the proof looks at it: the input scripts.
  datatype Tx = Tx(vin: seq<Bytes>)

  datatype Parent = Parent(hashMerkleRoot: Uint256, chainId: int)

  datatype Proof = Proof(coinbase: Option<Tx>, merkleBranch: seq<Uint256>, chainMerkleBranch: seq<Uint256>,
                         nChainIndex: Uint32, parent: Parent)

  // The hash functions and the consensus switch.
  datatype Env = Env(pair: (Uint256, Uint256) -> Uint256, txHash: Tx -> Uint256, strictChainId: bool)

  // Among these pairs, different ones hash differently.
  ghost predicate CollisionFree(env: Env, pairs: set<(Uint256, Uint256)>) {
    forall x, y :: x in pairs && y in pairs && env.pair(x.0, x.1) == env.pair(y.0, y.1) ==> x == y
  }

  // ---- Merkle branches ----

  // The two hashes joined at one level; the lowest bit of the index says on which side.
  function Join(hash: Uint256, sibling: Uint256, index: int): (Uint256, Uint256) {
    if index % 2 != 0 then (sibling, hash) else (hash, sibling)
  }

  // A leaf hashed up a branch.
  function Fold(env: Env, hash: Uint256, branch: seq<Uint256>, index: int): Uint256
    decreases |branch|
  {
    if branch == [] then hash
    else
      var pair := Join(hash, branch[0], index);
      Fold(env, env.pair(pair.0, pair.1), branch[1..], index / 2)
  }

  // The pairs hashed on the way.
  ghost function Hashed(env: Env, hash: Uint256, branch: seq<Uint256>, index: int): set<(Uint256, Uint256)>
    decreases |branch|
  {
    if branch == [] then {}
    else
      var pair := Join(hash, branch[0], index);
      {pair} + Hashed(env, env.pair(pair.0, pair.1), branch[1..], index / 2)
  }

  // An unsigned 32-bit value read as a signed one.
  function AsInt32(x: Uint32): int {
    if x < 0x8000_0000 then x else x - 0x1_0000_0000
  }

  method CheckMerkleBranch(env: Env, leaf: Uint256, branch: seq<Uint256>, index0: int) returns (hash: Uint256)
    ensures hash == if index0 == -1 then ZERO256 else Fold(env, leaf, branch, index0)
  {
    if index0 == -1 {
      return ZERO256;
    }
    hash := leaf;
    var index := index0;
    for k := 0 to |branch|
      invariant Fold(env, hash, branch[k..], index) == Fold(env, leaf, branch, index0)
    {
      assert branch[k..][1..] == branch[k + 1..];
      if index % 2 != 0 {
        hash := env.pair(branch[k], hash);
      } else {
        hash := env.pair(hash, branch[k]);
      }
      index := index / 2;
    }
  }

  // ---- Merkle trees ----

  // The node at a level and position of the perfect tree over the given leaves.
  ghost function Node(env: Env, leaf: nat -> Uint256, level: nat, pos: nat): Uint256
    decreases level
  {
    if level == 0 then leaf(pos)
    else env.pair(Node(env, leaf, level - 1, 2 * pos), Node(env, leaf, level - 1, 2 * pos + 1))
  }

  ghost function Sibling(pos: nat): nat {
    if pos % 2 == 0 then pos + 1 else pos - 1
  }

  // The siblings met on the way from a node up to the level of the root.
  ghost function Branch(env: Env, leaf: nat -> Uint256, level: nat, height: nat, pos: nat): seq<Uint256>
    requires level <= height
    decreases height - level
  {
    if level == height then []
    else [Node(env, leaf, level, Sibling(pos))] + Branch(env, leaf, level + 1, height, pos / 2)
  }

  // The branch of every leaf leads to the root of the tree.
  lemma {:induction false} BranchLeadsToRoot(env: Env, leaf: nat -> Uint256, level: nat, height: nat, pos: nat)
    requires level <= height && pos < Pow2(height - level)
    ensures |Branch(env, leaf, level, height, pos)| == height - level
    ensures Fold(env, Node(env, leaf, level, pos), Branch(env, leaf, level, height, pos), pos) ==
            Node(env, leaf, height, 0)
    decreases height - level
  {
    if level < height {
      BranchLeadsToRoot(env, leaf, level + 1, height, pos / 2);
      var up := pos / 2;
      assert pos == if pos % 2 == 0 then 2 * up else 2 * up + 1;
      var rest := Branch(env, leaf, level + 1, height, up);
      assert Branch(env, leaf, level, height, pos)[1..] == rest;
    }
  }

  // Unless computing the two roots meets a collision, one slot of one tree of known height
  // has one leaf.
  lemma {:induction false} FoldInjective(env: Env, a: Uint256, b: Uint256, branchA: seq<Uint256>,
                                         branchB: seq<Uint256>, index: int)
    requires CollisionFree(env, Hashed(env, a, branchA, index) + Hashed(env, b, branchB, index))
    requires |branchA| == |branchB|
    requires Fold(env, a, branchA, index) == Fold(env, b, branchB, index)
    ensures a == b && branchA == branchB
    decreases |branchA|
  {
    if branchA != [] {
      var x, y := Join(a, branchA[0], index), Join(b, branchB[0], index);
      var a', b' := env.pair(x.0, x.1), env.pair(y.0, y.1);
      assert Hashed(env, a', branchA[1..], index / 2) + Hashed(env, b', branchB[1..], index / 2)
          <= Hashed(env, a, branchA, index) + Hashed(env, b, branchB, index);
      FoldInjective(env, a', b', branchA[1..], branchB[1..], index / 2);
      assert x == y;
      assert branchA == [branchA[0]] + branchA[1..] && branchB == [branchB[0]] + branchB[1..];
    }
  }

  // The first k levels, then the rest; at index 0 the rest is at index 0 too.
  lemma {:induction false} FoldSplit(env: Env, hash: Uint256, branch: seq<Uint256>, k: nat)
    requires k <= |branch|
    ensures var mid := Fold(env, hash, branch[..k], 0);
            && Fold(env, hash, branch, 0) == Fold(env, mid, branch[k..], 0)
            && Hashed(env, hash, branch, 0) == Hashed(env, hash, branch[..k], 0) + Hashed(env, mid, branch[k..], 0)
    decreases k
  {
    if k == 0 {
      assert branch[k..] == branch;
    } else {
      var pair := Join(hash, branch[0], 0);
      FoldSplit(env, env.pair(pair.0, pair.1), branch[1..], k - 1);
      assert branch[..k][1..] == branch[1..][..k - 1] && branch[1..][k - 1..] == branch[k..];
    }
  }

  // A branch that is not empty ends in a hashed pair.
  lemma {:induction false} FoldIsHash(env: Env, hash: Uint256, branch: seq<Uint256>, index: int)
    returns (x: (Uint256, Uint256))
    requires branch != []
    ensures x in Hashed(env, hash, branch, index) && env.pair(x.0, x.1) == Fold(env, hash, branch, index)
    decreases |branch|
  {
    x := Join(hash, branch[0], index);
    if |branch| > 1 {
      x := FoldIsHash(env, env.pair(x.0, x.1), branch[1..], index / 2);
    }
  }

  // None of these pairs hashes to the leaf, so no inner node can pass for it.
  ghost predicate NotInner(env: Env, pairs: set<(Uint256, Uint256)>, leaf: Uint256) {
    forall x :: x in pairs ==> env.pair(x.0, x.1) != leaf
  }

  // The same for trees of any two heights, at the first slot.
  lemma FirstLeafUnique(env: Env, a: Uint256, b: Uint256, branchA: seq<Uint256>, branchB: seq<Uint256>)
    requires var pairs := Hashed(env, a, branchA, 0) + Hashed(env, b, branchB, 0);
             CollisionFree(env, pairs) && NotInner(env, pairs, a) && NotInner(env, pairs, b)
    requires Fold(env, a, branchA, 0) == Fold(env, b, branchB, 0)
    ensures a == b && branchA == branchB
  {
    hide Fold, Hashed, CollisionFree, NotInner;
    assert Hashed(env, a, branchA, 0) + Hashed(env, b, branchB, 0) ==
             Hashed(env, b, branchB, 0) + Hashed(env, a, branchA, 0);
    if |branchA| <= |branchB| {
      LongerBranch(env, a, b, branchA, branchB);
    } else {
      LongerBranch(env, b, a, branchB, branchA);
    }
  }

  lemma LongerBranch(env: Env, a: Uint256, b: Uint256, branchA: seq<Uint256>, branchB: seq<Uint256>)
    requires var pairs := Hashed(env, a, branchA, 0) + Hashed(env, b, branchB, 0);
             CollisionFree(env, pairs) && NotInner(env, pairs, a)
    requires Fold(env, a, branchA, 0) == Fold(env, b, branchB, 0) && |branchA| <= |branchB|
    ensures a == b && branchA == branchB
  {
    hide Fold, Hashed, CollisionFree;
    var k := |branchB| - |branchA|;
    var mid := Fold(env, b, branchB[..k], 0);
    FoldSplit(env, b, branchB, k);
    FewerPairs(env, Hashed(env, a, branchA, 0) + Hashed(env, mid, branchB[k..], 0),
               Hashed(env, a, branchA, 0) + Hashed(env, b, branchB, 0));
    FoldInjective(env, a, mid, branchA, branchB[k..], 0);
    if k > 0 {
      var x := FoldIsHash(env, b, branchB[..k], 0);
      assert false;
    }
    assert branchB[..0] == [] && branchB[0..] == branchB;
    FoldNone(env, b);
  }

  lemma FoldNone(env: Env, hash: Uint256)
    ensures Fold(env, hash, [], 0) == hash
  {}

  lemma FewerPairs(env: Env, s: set<(Uint256, Uint256)>, t: set<(Uint256, Uint256)>)
    requires s <= t && CollisionFree(env, t)
    ensures CollisionFree(env, s)
  {}

  // ---- searching the script ----

  predicate Occurs(s: Bytes, pat: Bytes, i: nat) {
    i + |pat| <= |s| && s[i..i + |pat|] == pat
  }

  // First occurrence at or after `from`; |s| when there is none.
  function First(s: Bytes, pat: Bytes, from: nat): (p: nat)
    decreases |s| - from
  {
    if from >= |s| then |s| else if Occurs(s, pat, from) then from else First(s, pat, from + 1)
  }

  lemma {:induction false} FirstFacts(s: Bytes, pat: Bytes, from: nat)
    requires |pat| > 0
    ensures First(s, pat, from) <= |s|
    ensures First(s, pat, from) < |s| ==> from <= First(s, pat, from) && Occurs(s, pat, First(s, pat, from))
    ensures forall i :: from <= i < First(s, pat, from) ==> !Occurs(s, pat, i)
    decreases |s| - from
  {
    if from < |s| && !Occurs(s, pat, from) {
      FirstFacts(s, pat, from + 1);
    }
  }

  method Search(s: Bytes, pat: Bytes, from: nat) returns (p: nat)
    ensures p == First(s, pat, from)
  {
    p := from;
    while p < |s| && !Occurs(s, pat, p)
      invariant First(s, pat, p) == First(s, pat, from)
    {
      p := p + 1;
    }
    if p > |s| {
      p := |s|;
    }
  }

  function Reversed(s: Bytes): (r: Bytes)
    ensures |r| == |s| && forall i :: 0 <= i < |s| ==> r[i] == s[|s| - 1 - i]
  {
    seq(|s|, i requires 0 <= i < |s| => s[|s| - 1 - i])
  }

  lemma ReversedInjective(a: Bytes, b: Bytes)
    requires Reversed(a) == Reversed(b)
    ensures a == b
  {
    assert |a| == |b|;
    forall i | 0 <= i < |a| ensures a[i] == b[i] {
      assert Reversed(a)[|a| - 1 - i] == Reversed(b)[|b| - 1 - i];
    }
  }

  function LE32(s: Bytes, i: nat): (x: Uint32)
    requires i + 4 <= |s|
  {
    var b0: int, b1: int, b2: int, b3: int := s[i], s[i + 1], s[i + 2], s[i + 3];
    b0 + 0x100 * b1 + 0x1_0000 * b2 + 0x100_0000 * b3
  }

  // Four bytes, the lowest first.
  function Bytes32(x: Uint32): Bytes {
    [x % 0x100, x / 0x100 % 0x100, x / 0x1_0000 % 0x100, x / 0x100_0000]
  }

  lemma LE32ReadsBack(x: Uint32, s: Bytes, i: nat)
    requires i + 4 <= |s| && s[i..i + 4] == Bytes32(x)
    ensures LE32(s, i) == x
  {
    var b := Bytes32(x);
    assert s[i] == b[0] && s[i + 1] == b[1] && s[i + 2] == b[2] && s[i + 3] == b[3];
    hide Bytes32;
    SplitBytes(x);
  }

  lemma SplitBytes(x: Uint32)
    ensures x == x % 0x100 + 0x100 * (x / 0x100 % 0x100) + 0x1_0000 * (x / 0x1_0000 % 0x100)
                 + 0x100_0000 * (x / 0x100_0000)
  {
    var a := x / 0x100;
    var b := a / 0x100;
    DivModUnique(x, 0x1_0000, b, a % 0x100 * 0x100 + x % 0x100);
    DivModUnique(x, 0x100_0000, b / 0x100, b % 0x100 * 0x1_0000 + a % 0x100 * 0x100 + x % 0x100);
  }

  // ---- the slot of a chain ----

  lemma {:induction false} Pow2Strict(a: nat, b: nat)
    requires a < b
    ensures Pow2(a) < Pow2(b)
    decreases b
  {
    if a < b - 1 {
      Pow2Strict(a, b - 1);
    }
  }

  // The congruential generator, and what undoes its multiplication modulo 2^32.
  const MULT := 1103515245
  const STEP := 12345
  ghost const INVERSE := 4005161829

  // Arithmetic modulo 2^32, as on the source's uint32_t.
  function ExpectedIndex(nonce: Uint32, chainId: int, height: nat): (x: nat)
    ensures x < Pow2(height)
  {
    var rand := (nonce * MULT + STEP) % 0x1_0000_0000;
    var rand' := (rand + chainId) % 0x1_0000_0000;
    var rand'' := (rand' * MULT + STEP) % 0x1_0000_0000;
    rand'' % Pow2(height)
  }

  // Without the truncations: both rounds at once, modulo the size of the tree.
  lemma SlotFormula(nonce: Uint32, chainId: int, height: nat)
    requires height <= 32
    ensures Same(ExpectedIndex(nonce, chainId, height), MULT * (MULT * nonce + STEP + chainId) + STEP, Pow2(height))
  {
    hide Pow2, Same;
    var d := Pow2(height);
    assert 0x1_0000_0000 == d * Pow2(32 - height) by { Pow2Add(height, 32 - height); Pow2Of32(); }
    var r1 := (MULT * nonce + STEP) % 0x1_0000_0000;
    var r2 := (r1 + chainId) % 0x1_0000_0000;
    var r3 := (r2 * MULT + STEP) % 0x1_0000_0000;
    SameMod(MULT * nonce + STEP, d, Pow2(32 - height));
    SameAdd(r1, MULT * nonce + STEP, chainId, d);
    SameMod(r1 + chainId, d, Pow2(32 - height));
    SameTrans(r2, r1 + chainId, MULT * nonce + STEP + chainId, d);
    SameTimes(r2, MULT * nonce + STEP + chainId, MULT, d);
    SameAdd(MULT * r2, MULT * (MULT * nonce + STEP + chainId), STEP, d);
    SameMod(r2 * MULT + STEP, d, Pow2(32 - height));
    SameTrans(r3, MULT * r2 + STEP, MULT * (MULT * nonce + STEP + chainId) + STEP, d);
    SameMod(r3, d, 1);
    SameTrans(r3 % d, r3, MULT * (MULT * nonce + STEP + chainId) + STEP, d);
  }

  // One slot per chain id: two chains share a slot exactly if their ids agree modulo the size.
  lemma SameSlotIff(nonce: Uint32, c: int, c': int, height: nat)
    requires height <= 32
    ensures ExpectedIndex(nonce, c, height) == ExpectedIndex(nonce, c', height) <==> Same(c, c', Pow2(height))
  {
    hide Pow2, ExpectedIndex;
    var d := Pow2(height);
    var x, x' := ExpectedIndex(nonce, c, height), ExpectedIndex(nonce, c', height);
    var y, y' := MULT * nonce + STEP + c, MULT * nonce + STEP + c';
    SlotFormula(nonce, c, height);
    SlotFormula(nonce, c', height);
    SameBoth(x, MULT * y + STEP, x', MULT * y' + STEP, d);
    assert MULT * y + STEP - (MULT * y' + STEP) == MULT * (c - c');
    OddCancels(MULT, c - c', height);
    SmallSame(x, x', d);
  }

  // No slot is wasted: each is the slot of some chain id below the size.
  lemma SlotTaken(nonce: Uint32, height: nat, slot: nat) returns (c: nat)
    requires height <= 32 && slot < Pow2(height)
    ensures c < Pow2(height) && ExpectedIndex(nonce, c, height) == slot
  {
    hide Pow2, ExpectedIndex;
    var d := Pow2(height);
    var k := INVERSE * (slot - STEP) - (MULT * nonce + STEP);
    c := k % d;
    SlotFormula(nonce, k, height);
    assert MULT * (MULT * nonce + STEP + k) == MULT * (INVERSE * (slot - STEP));
    InverseSame(slot - STEP, height);
    SameAdd(MULT * (INVERSE * (slot - STEP)), slot - STEP, STEP, d);
    SameTrans(ExpectedIndex(nonce, k, height), MULT * (INVERSE * (slot - STEP)) + STEP, slot, d);
    SmallSame(ExpectedIndex(nonce, k, height), slot, d);
    SameMod(k, d, 1);
    SameSlotIff(nonce, c, k, height);
  }

  lemma InverseSame(x: int, height: nat)
    requires height <= 32
    ensures Same(MULT * (INVERSE * x), x, Pow2(height))
  {
    hide Pow2;
    var e := Pow2(32 - height);
    assert 0x1_0000_0000 == Pow2(height) * e by { Pow2Add(height, 32 - height); Pow2Of32(); }
    assert MULT * INVERSE == 1029054899 * 0x1_0000_0000 + 1;
    assert MULT * (INVERSE * x) - x == 1029054899 * 0x1_0000_0000 * x;
    var q := 1029054899 * e * x;
    assert 1029054899 * 0x1_0000_0000 * x == q * Pow2(height) by { FourFactors(1029054899, Pow2(height), e, x); }
    MultipleMod(q, Pow2(height));
  }

  lemma FourFactors(a: int, p: int, e: int, x: int)
    ensures a * (p * e) * x == a * e * x * p
  {}

  // A slot worked out by hand, each remainder with its quotient.
  lemma SlotBySteps(nonce: Uint32, chainId: int, height: nat, q1: int, r1: int, q2: int, r2: int, q3: int, r3: int,
                    q4: int, slot: int)
    requires 0 <= r1 < 0x1_0000_0000 && nonce * MULT + STEP == q1 * 0x1_0000_0000 + r1
    requires 0 <= r2 < 0x1_0000_0000 && r1 + chainId == q2 * 0x1_0000_0000 + r2
    requires 0 <= r3 < 0x1_0000_0000 && r2 * MULT + STEP == q3 * 0x1_0000_0000 + r3
    requires 0 <= slot < Pow2(height) && r3 == q4 * Pow2(height) + slot
    ensures ExpectedIndex(nonce, chainId, height) == slot
  {
    hide Pow2;
    DivModUnique(nonce * MULT + STEP, 0x1_0000_0000, q1, r1);
    DivModUnique(r1 + chainId, 0x1_0000_0000, q2, r2);
    DivModUnique(r2 * MULT + STEP, 0x1_0000_0000, q3, r3);
    DivModUnique(r3, Pow2(height), q4, slot);
  }

  // The multiplier, the increment and their order, on concrete inputs.
  lemma ConcreteSlots()
    ensures ExpectedIndex(0, 1, 1) == 1
    ensures ExpectedIndex(0, 0, 30) == 333190782 && ExpectedIndex(1, 0, 30) == 377401575
    ensures ExpectedIndex(0, 1, 30) == 362964203 && ExpectedIndex(0xffff_ffff, 98, 16) == 33231
  {
    hide Pow2, ExpectedIndex;
    SmallPowers();
    SlotBySteps(0, 1, 1, 0, 12345, 0, 12346, 3172, 362964203, 181482101, 1);
    SlotBySteps(0, 0, 30, 0, 12345, 0, 12345, 3171, 3554416254, 3, 333190782);
    SlotBySteps(1, 0, 30, 0, 1103527590, 0, 1103527590, 283531732, 2524885223, 2, 377401575);
    SlotBySteps(0, 1, 30, 0, 12345, 0, 12346, 3172, 362964203, 0, 362964203);
    SlotBySteps(4294967295, 98, 16, 1103515244, 3191464396, 0, 3191464494, 819989881, 1059291599, 16163, 33231);
  }

  lemma SmallPowers()
    ensures Pow2(1) == 2 && Pow2(16) == 0x1_0000 && Pow2(30) == 0x4000_0000
  {
    assert Pow2(2) == 4 && Pow2(5) == 32;
    hide Pow2;
    Pow2Add(5, 5);
    Pow2Add(10, 10);
    Pow2Add(20, 10);
    Pow2Add(10, 2);
    Pow2Add(12, 2);
    Pow2Add(14, 2);
  }

  // ---- the check ----
  // ---- the check ----

  // Where the script must have the root.
  ghost predicate RootPlaced(script: Bytes, header: nat, root: nat) {
    && root != |script|
    && if header != |script| then First(script, MERGED_MINING_HEADER, header + 1) == |script| && header + 4 == root
       else root <= 20
  }

  // What must follow the root, `tail` being the position behind it.
  ghost predicate TailOk(script: Bytes, tail: nat, height: nat, nChainIndex: Uint32, chainId: int) {
    && tail + 8 <= |script|
    && LE32(script, tail) == Pow2(height)
    && nChainIndex == ExpectedIndex(LE32(script, tail + 4), chainId, height)
  }

  ghost predicate ScriptOk(script: Bytes, rootBytes: Bytes, height: nat, nChainIndex: Uint32, chainId: int) {
    && RootPlaced(script, First(script, MERGED_MINING_HEADER, 0), First(script, rootBytes, 0))
    && TailOk(script, First(script, rootBytes, 0) + |rootBytes|, height, nChainIndex, chainId)
  }

  ghost predicate Checks(env: Env, p: Proof, auxHash: Uint256, chainId: int) {
    && !(env.strictChainId && p.parent.chainId == chainId)
    && |p.chainMerkleBranch| <= 30
    && p.coinbase.Some?
    && Fold(env, env.txHash(p.coinbase.value), p.merkleBranch, 0) == p.parent.hashMerkleRoot
    && p.coinbase.value.vin != []
    && ScriptOk(p.coinbase.value.vin[0], Reversed(ChainRoot(env, p, auxHash)), |p.chainMerkleBranch|, p.nChainIndex,
                chainId)
  }

  ghost function ChainRoot(env: Env, p: Proof, auxHash: Uint256): Uint256 {
    if AsInt32(p.nChainIndex) == -1 then ZERO256 else Fold(env, auxHash, p.chainMerkleBranch, AsInt32(p.nChainIndex))
  }

  // The pairs hashed for the chain root, and for the parent's Merkle root.
  ghost function ChainHashes(env: Env, p: Proof, auxHash: Uint256): set<(Uint256, Uint256)> {
    Hashed(env, auxHash, p.chainMerkleBranch, AsInt32(p.nChainIndex))
  }

  ghost function CoinbaseHashes(env: Env, p: Proof): set<(Uint256, Uint256)>
    requires p.coinbase.Some?
  {
    Hashed(env, env.txHash(p.coinbase.value), p.merkleBranch, 0)
  }

  method Check(env: Env, p: Proof, auxHash: Uint256, chainId: int) returns (ok: bool)
    ensures ok <==> Checks(env, p, auxHash, chainId)
  {
    if env.strictChainId && p.parent.chainId == chainId {
      return false;
    }
    if |p.chainMerkleBranch| > 30 {
      return false;
    }
    var rootHash := CheckMerkleBranch(env, auxHash, p.chainMerkleBranch, AsInt32(p.nChainIndex));
    var rootBytes := Reversed(rootHash);
    if p.coinbase == None {
      return false;
    }
    var merkleRoot := CheckMerkleBranch(env, env.txHash(p.coinbase.value), p.merkleBranch, 0);
    if merkleRoot != p.parent.hashMerkleRoot {
      return false;
    }
    if p.coinbase.value.vin == [] {
      return false;
    }
    var script := p.coinbase.value.vin[0];
    var headerPos := Search(script, MERGED_MINING_HEADER, 0);
    var rootPos := Search(script, rootBytes, 0);
    if rootPos == |script| {
      return false;
    }
    if headerPos != |script| {
      var second := Search(script, MERGED_MINING_HEADER, headerPos + 1);
      if second != |script| {
        return false;
      }
      if headerPos + |MERGED_MINING_HEADER| != rootPos {
        return false;
      }
    } else if rootPos > 20 {
      return false;
    }
    var tail := rootPos + |rootBytes|;
    if tail + 8 > |script| {
      return false;
    }
    var merkleSize := LE32(script, tail);
    var height := |p.chainMerkleBranch|;
    if merkleSize != Pow2(height) {
      return false;
    }
    var nonce := LE32(script, tail + 4);
    ok := p.nChainIndex == ExpectedIndex(nonce, chainId, height);
  }

  // ---- one block per chain and coinbase ----

  ghost predicate HasHeader(script: Bytes) {
    First(script, MERGED_MINING_HEADER, 0) != |script|
  }

  // An offset at which the script can be read as a root, the size of a tree and a nonce.
  ghost predicate Place(script: Bytes, i: nat) {
    i + 40 <= |script| && First(script, script[i..i + 32], 0) == i && TreeSize(LE32(script, i + 32))
  }

  ghost predicate TreeSize(size: Uint32) {
    exists height: nat :: height <= 30 && size == Pow2(height)
  }

  // The script has the header, or at most one offset it could be read at.
  ghost predicate FixesRoot(script: Bytes) {
    HasHeader(script) || forall i: nat, j: nat :: i <= 20 && j <= 20 && Place(script, i) && Place(script, j) ==> i == j
  }

  // Reading a script in two ways means finding two roots at two places.
  lemma SamePlaceIffSame(script: Bytes, rootA: Bytes, rootB: Bytes, heightA: nat, heightB: nat,
                         indexA: Uint32, indexB: Uint32, chainId: int)
    requires |rootA| == |rootB| > 0
    requires ScriptOk(script, rootA, heightA, indexA, chainId) && ScriptOk(script, rootB, heightB, indexB, chainId)
    ensures First(script, rootA, 0) == First(script, rootB, 0) <==>
              rootA == rootB && heightA == heightB && indexA == indexB
  {
    hide First, Pow2, ExpectedIndex, LE32;
    FirstFacts(script, rootA, 0);
    FirstFacts(script, rootB, 0);
    if heightA < heightB {
      Pow2Strict(heightA, heightB);
    } else if heightB < heightA {
      Pow2Strict(heightB, heightA);
    }
  }

  // In one tree, two chains are accepted at the same index exactly if their ids agree modulo its size.
  lemma IndexPerChain(env: Env, p: Proof, q: Proof, auxP: Uint256, auxQ: Uint256, c: int, c': int)
    requires p.coinbase == q.coinbase && Checks(env, p, auxP, c) && Checks(env, q, auxQ, c')
    requires var script := p.coinbase.value.vin[0];
             First(script, Reversed(ChainRoot(env, p, auxP)), 0) == First(script, Reversed(ChainRoot(env, q, auxQ)), 0)
    ensures |p.chainMerkleBranch| == |q.chainMerkleBranch|
    ensures p.nChainIndex == q.nChainIndex <==> Same(c, c', Pow2(|p.chainMerkleBranch|))
  {
    hide First, Pow2, ExpectedIndex, LE32, Same;
    var script := p.coinbase.value.vin[0];
    var height, height' := |p.chainMerkleBranch|, |q.chainMerkleBranch|;
    if height < height' {
      Pow2Strict(height, height');
    } else if height' < height {
      Pow2Strict(height', height);
    }
    SameSlotIff(LE32(script, First(script, Reversed(ChainRoot(env, p, auxP)), 0) + 36), c, c', height);
  }

  // With the merged-mining header in the script, the script alone fixes the root, the
  // height of the tree and the slot.
  lemma HeaderFixesRoot(script: Bytes, rootA: Bytes, rootB: Bytes, heightA: nat, heightB: nat,
                        indexA: Uint32, indexB: Uint32, chainId: int)
    requires HasHeader(script) && |rootA| == |rootB| > 0
    requires ScriptOk(script, rootA, heightA, indexA, chainId) && ScriptOk(script, rootB, heightB, indexB, chainId)
    ensures rootA == rootB && heightA == heightB && indexA == indexB
  {
    hide First, TailOk;
    SamePlaceIffSame(script, rootA, rootB, heightA, heightB, indexA, indexB, chainId);
  }

  // Where an accepted root is found.
  lemma AcceptedPlace(script: Bytes, root: Uint256, height: nat, index: Uint32, chainId: int)
    requires height <= 30 && ScriptOk(script, root, height, index, chainId)
    ensures var i := First(script, root, 0);
            && Place(script, i) && script[i..i + 32] == root
            && if HasHeader(script) then i == First(script, MERGED_MINING_HEADER, 0) + 4 else i <= 20
  {
    hide First, Pow2, ExpectedIndex, LE32;
    FirstFacts(script, root, 0);
  }

  // At every place of a script without header a root is accepted.
  lemma ReadAt(script: Bytes, i: nat, chainId: int) returns (root: Uint256, height: nat, index: Uint32)
    requires !HasHeader(script) && i <= 20 && Place(script, i)
    ensures root == script[i..i + 32] && First(script, root, 0) == i && height <= 30
    ensures LE32(script, i + 32) == Pow2(height) && ScriptOk(script, root, height, index, chainId)
  {
    hide First, Pow2, ExpectedIndex, LE32;
    height :| height <= 30 && LE32(script, i + 32) == Pow2(height);
    root := script[i..i + 32];
    SlotIsSmall(height);
    index := ExpectedIndex(LE32(script, i + 36), chainId, height);
  }

  // All readings of the script agree on root, height and slot.
  ghost predicate OneReading(script: Bytes, chainId: int) {
    forall rootA: Uint256, rootB: Uint256, heightA: nat, heightB: nat, indexA: Uint32, indexB: Uint32
      {:trigger ScriptOk(script, rootA, heightA, indexA, chainId), ScriptOk(script, rootB, heightB, indexB, chainId)} ::
      && heightA <= 30 && heightB <= 30
      && ScriptOk(script, rootA, heightA, indexA, chainId)
      && ScriptOk(script, rootB, heightB, indexB, chainId)
      ==> rootA == rootB && heightA == heightB && indexA == indexB
  }

  // Main result for scripts: exactly when a script can be read in one way only.
  lemma OneReadingExactly(script: Bytes, chainId: int)
    ensures OneReading(script, chainId) <==> FixesRoot(script)
  {
    hide ScriptOk, Place;
    if FixesRoot(script) {
      forall rootA: Uint256, rootB: Uint256, heightA: nat, heightB: nat, indexA: Uint32, indexB: Uint32
        | && heightA <= 30 && heightB <= 30
          && ScriptOk(script, rootA, heightA, indexA, chainId)
          && ScriptOk(script, rootB, heightB, indexB, chainId)
        ensures rootA == rootB && heightA == heightB && indexA == indexB
      {
        ScriptFixesRoot(script, rootA, rootB, heightA, heightB, indexA, indexB, chainId);
      }
    } else {
      var i: nat, j: nat :| i <= 20 && j <= 20 && Place(script, i) && Place(script, j) && i != j;
      var rootA, heightA, indexA := ReadAt(script, i, chainId);
      var rootB, heightB, indexB := ReadAt(script, j, chainId);
    }
  }

  lemma ScriptFixesRoot(script: Bytes, rootA: Uint256, rootB: Uint256, heightA: nat, heightB: nat,
                        indexA: Uint32, indexB: Uint32, chainId: int)
    requires FixesRoot(script) && heightA <= 30 && heightB <= 30
    requires ScriptOk(script, rootA, heightA, indexA, chainId) && ScriptOk(script, rootB, heightB, indexB, chainId)
    ensures rootA == rootB && heightA == heightB && indexA == indexB
  {
    hide ScriptOk, Place;
    AcceptedPlace(script, rootA, heightA, indexA, chainId);
    AcceptedPlace(script, rootB, heightB, indexB, chainId);
    SamePlaceIffSame(script, rootA, rootB, heightA, heightB, indexA, indexB, chainId);
  }

  // The root a proof leads to, as it stands in the script.
  ghost function RootBytes(env: Env, p: Proof, auxHash: Uint256): Uint256 {
    Reversed(ChainRoot(env, p, auxHash))
  }

  // Two proofs with one coinbase prove the same block by the same branch exactly when the
  // script is read at the same place for both.
  lemma SameBlockIffSamePlace(env: Env, p: Proof, q: Proof, auxP: Uint256, auxQ: Uint256, chainId: int)
    requires CollisionFree(env, ChainHashes(env, p, auxP) + ChainHashes(env, q, auxQ))
    requires p.coinbase == q.coinbase
    requires Checks(env, p, auxP, chainId) && Checks(env, q, auxQ, chainId)
    ensures var script := p.coinbase.value.vin[0];
            First(script, RootBytes(env, p, auxP), 0) == First(script, RootBytes(env, q, auxQ), 0) <==>
            auxP == auxQ && p.chainMerkleBranch == q.chainMerkleBranch && p.nChainIndex == q.nChainIndex
  {
    hide First, ScriptOk, Hashed, Fold;
    var script := p.coinbase.value.vin[0];
    var rootP, rootQ := ChainRoot(env, p, auxP), ChainRoot(env, q, auxQ);
    SamePlaceIffSame(script, Reversed(rootP), Reversed(rootQ), |p.chainMerkleBranch|, |q.chainMerkleBranch|,
                     p.nChainIndex, q.nChainIndex, chainId);
    if First(script, Reversed(rootP), 0) == First(script, Reversed(rootQ), 0) {
      ReversedInjective(rootP, rootQ);
      SlotInRange(script, Reversed(rootP), |p.chainMerkleBranch|, p.nChainIndex, chainId);
      FoldInjective(env, auxP, auxQ, p.chainMerkleBranch, q.chainMerkleBranch, AsInt32(p.nChainIndex));
    }
  }

  // A coinbase script as miners write it: the header once, then the root, the size and the nonce.
  ghost predicate Commits(script: Bytes, root: Uint256, height: nat, nonce: Uint32) {
    var header := First(script, MERGED_MINING_HEADER, 0);
    var at := header + 4;
    && header != |script| && First(script, MERGED_MINING_HEADER, header + 1) == |script|
    && First(script, Reversed(root), 0) == at && at + 40 <= |script|
    && Pow2(height) < 0x1_0000_0000 && script[at + 32..at + 36] == Bytes32(Pow2(height))
    && script[at + 36..at + 40] == Bytes32(nonce)
  }

  // The proof for the block in a slot of a merged-mining tree, from a parent whose first transaction
  // commits to the tree.
  ghost function ProofOf(env: Env, coinbase: Tx, parentLeaf: nat -> Uint256, parentHeight: nat, parentId: int,
                         leaf: nat -> Uint256, height: nat, slot: Uint32): Proof
  {
    Proof(Some(coinbase), Branch(env, parentLeaf, 0, parentHeight, 0), Branch(env, leaf, 0, height, slot), slot,
          Parent(Node(env, parentLeaf, parentHeight, 0), parentId))
  }

  // Completeness: every chain whose block is in its slot of the tree gets an accepted proof.
  lemma EveryChainIsServed(env: Env, coinbase: Tx, parentLeaf: nat -> Uint256, parentHeight: nat, parentId: int,
                           leaf: nat -> Uint256, height: nat, nonce: Uint32, chainId: int)
    requires height <= 30 && !(env.strictChainId && parentId == chainId)
    requires coinbase.vin != [] && parentLeaf(0) == env.txHash(coinbase)
    requires Commits(coinbase.vin[0], Node(env, leaf, height, 0), height, nonce)
    ensures var slot := ExpectedIndex(nonce, chainId, height);
            slot < 0x4000_0000 &&
            Checks(env, ProofOf(env, coinbase, parentLeaf, parentHeight, parentId, leaf, height, slot), leaf(slot),
                   chainId)
  {
    hide First, Pow2, ExpectedIndex, LE32, Fold, Bytes32;
    var script, root := coinbase.vin[0], Node(env, leaf, height, 0);
    var slot := ExpectedIndex(nonce, chainId, height);
    SlotIsSmall(height);
    BranchLeadsToRoot(env, leaf, 0, height, slot);
    BranchLeadsToRoot(env, parentLeaf, 0, parentHeight, 0);
    var at := First(script, MERGED_MINING_HEADER, 0) + 4;
    LE32ReadsBack(Pow2(height), script, at + 32);
    LE32ReadsBack(nonce, script, at + 36);
  }

  // Main result: one parent coinbase whose script fixes the root proves at most one block of
  // a chain.
  lemma OneBlockPerCoinbase(env: Env, p: Proof, q: Proof, auxP: Uint256, auxQ: Uint256, chainId: int)
    requires CollisionFree(env, ChainHashes(env, p, auxP) + ChainHashes(env, q, auxQ))
    requires p.coinbase == q.coinbase && p.coinbase.Some? && p.coinbase.value.vin != []
    requires FixesRoot(p.coinbase.value.vin[0])
    requires Checks(env, p, auxP, chainId) && Checks(env, q, auxQ, chainId)
    ensures auxP == auxQ
    ensures p.chainMerkleBranch == q.chainMerkleBranch && p.nChainIndex == q.nChainIndex
  {
    hide First, ScriptOk, FixesRoot, CollisionFree, ChainHashes;
    ScriptFixesRoot(p.coinbase.value.vin[0], RootBytes(env, p, auxP), RootBytes(env, q, auxQ),
                    |p.chainMerkleBranch|, |q.chainMerkleBranch|, p.nChainIndex, q.nChainIndex, chainId);
    SameBlockIffSamePlace(env, p, q, auxP, auxQ, chainId);
  }

  // A tree of height at most 30 has its slots below 2^30: never the index read as -1.
  lemma SlotIsSmall(height: nat)
    requires height <= 30
    ensures Pow2(height) <= 0x4000_0000
  {
    hide Pow2;
    SmallPowers();
    if height < 30 {
      Pow2Strict(height, 30);
    }
  }

  lemma SlotInRange(script: Bytes, root: Bytes, height: nat, index: Uint32, chainId: int)
    requires height <= 30 && ScriptOk(script, root, height, index, chainId)
    ensures AsInt32(index) == index
  {
    hide First, Pow2, LE32;
    SlotIsSmall(height);
  }

  // The same from the parent block, for coinbase branches of any length, as long as no inner
  // node of the parent's tree passes for a coinbase.
  lemma OneBlockPerParent(env: Env, p: Proof, q: Proof, auxP: Uint256, auxQ: Uint256, chainId: int)
    requires Checks(env, p, auxP, chainId) && Checks(env, q, auxQ, chainId) && p.parent == q.parent
    requires CollisionFree(env, ChainHashes(env, p, auxP) + ChainHashes(env, q, auxQ))
    requires var pairs := CoinbaseHashes(env, p) + CoinbaseHashes(env, q);
             && CollisionFree(env, pairs)
             && NotInner(env, pairs, env.txHash(p.coinbase.value))
             && NotInner(env, pairs, env.txHash(q.coinbase.value))
    requires env.txHash(p.coinbase.value) == env.txHash(q.coinbase.value) ==> p.coinbase == q.coinbase
    requires FixesRoot(p.coinbase.value.vin[0])
    ensures p.coinbase == q.coinbase && p.merkleBranch == q.merkleBranch && auxP == auxQ
  {
    hide First, ScriptOk, FixesRoot, CollisionFree, ChainHashes, NotInner, Hashed, Fold;
    FirstLeafUnique(env, env.txHash(p.coinbase.value), env.txHash(q.coinbase.value), p.merkleBranch, q.merkleBranch);
    OneBlockPerCoinbase(env, p, q, auxP, auxQ, chainId);
  }

  // ---- scripts that do not fix the root ----

  // A proof with this script, for a tree of a single slot.
  ghost function SingleSlotProof(env: Env, script: Bytes, chainId: int): Proof {
    Proof(Some(Tx([script])), [], [], 0, Parent(env.txHash(Tx([script])), chainId + 1))
  }

  lemma SingleSlotChecks(env: Env, script: Bytes, chainId: int, i: nat)
    requires !HasHeader(script) && i <= 20 && Place(script, i) && LE32(script, i + 32) == 1
    ensures Checks(env, SingleSlotProof(env, script, chainId), Reversed(script[i..i + 32]), chainId)
  {
    hide First, Reversed, LE32;
    var p, aux := SingleSlotProof(env, script, chainId), Reversed(script[i..i + 32]);
    ReversedTwice(script[i..i + 32]);
    assert ChainRoot(env, p, aux) == aux;
    assert Pow2(0) == 1;
  }

  lemma ReversedTwice(s: Bytes)
    ensures Reversed(Reversed(s)) == s
  {}

  // Any script without header that can be read at two places with a tree of one slot lets one
  // proof pass for two different blocks.
  lemma TwoPlacesTwoBlocks(env: Env, script: Bytes, chainId: int, i: nat, j: nat)
    returns (p: Proof, a: Uint256, b: Uint256)
    requires !HasHeader(script) && i <= 20 && j <= 20 && i != j && Place(script, i) && Place(script, j)
    requires LE32(script, i + 32) == 1 && LE32(script, j + 32) == 1
    ensures p.coinbase == Some(Tx([script])) && p.chainMerkleBranch == []
    ensures a != b && Checks(env, p, a, chainId) && Checks(env, p, b, chainId)
  {
    hide Checks, First, LE32, Reversed;
    p, a, b := SingleSlotProof(env, script, chainId), Reversed(script[i..i + 32]), Reversed(script[j..j + 32]);
    SingleSlotChecks(env, script, chainId, i);
    SingleSlotChecks(env, script, chainId, j);
    if a == b {
      ReversedInjective(script[i..i + 32], script[j..j + 32]);
    }
  }

  ghost predicate SingleSlotPlace(script: Bytes, i: nat) {
    i <= 20 && Place(script, i) && LE32(script, i + 32) == 1
  }

  // All proofs with this script and a tree of one slot are for one block.
  ghost predicate OneSingleSlotBlock(env: Env, script: Bytes, chainId: int) {
    forall p: Proof, q: Proof, a: Uint256, b: Uint256
      {:trigger Checks(env, p, a, chainId), Checks(env, q, b, chainId)} ::
      && p.coinbase == q.coinbase == Some(Tx([script])) && p.chainMerkleBranch == q.chainMerkleBranch == []
      && Checks(env, p, a, chainId) && Checks(env, q, b, chainId)
      ==> a == b
  }

  // Main result for proofs, without any assumption on the hashes: exactly when a coinbase can
  // prove only one block in a tree of one slot.
  lemma OneSingleSlotBlockExactly(env: Env, script: Bytes, chainId: int)
    ensures OneSingleSlotBlock(env, script, chainId) <==>
            HasHeader(script)
              || forall i: nat, j: nat :: SingleSlotPlace(script, i) && SingleSlotPlace(script, j) ==> i == j
  {
    hide Checks, Place, First, LE32;
    if || HasHeader(script)
       || forall i: nat, j: nat :: SingleSlotPlace(script, i) && SingleSlotPlace(script, j) ==> i == j
    {
      forall p: Proof, q: Proof, a: Uint256, b: Uint256
        | && p.coinbase == q.coinbase == Some(Tx([script])) && p.chainMerkleBranch == q.chainMerkleBranch == []
          && Checks(env, p, a, chainId) && Checks(env, q, b, chainId)
        ensures a == b
      {
        SingleSlotRead(env, p, script, a, chainId);
        SingleSlotRead(env, q, script, b, chainId);
        ReversedTwice(a);
        ReversedTwice(b);
      }
    } else {
      var i: nat, j: nat :| SingleSlotPlace(script, i) && SingleSlotPlace(script, j) && i != j;
      var p, a, b := TwoPlacesTwoBlocks(env, script, chainId, i, j);
    }
  }

  lemma SingleSlotRead(env: Env, p: Proof, script: Bytes, aux: Uint256, chainId: int)
    requires p.coinbase == Some(Tx([script])) && p.chainMerkleBranch == [] && Checks(env, p, aux, chainId)
    ensures var i := First(script, Reversed(aux), 0);
            && Place(script, i) && LE32(script, i + 32) == 1 && script[i..i + 32] == Reversed(aux)
            && if HasHeader(script) then i == First(script, MERGED_MINING_HEADER, 0) + 4 else SingleSlotPlace(script, i)
  {
    hide First, LE32, Reversed;
    SlotInRange(script, RootBytes(env, p, aux), 0, p.nChainIndex, chainId);
    assert ChainRoot(env, p, aux) == aux;
    AcceptedPlace(script, Reversed(aux), 0, p.nChainIndex, chainId);
    assert Pow2(0) == 1;
  }

  // Such scripts exist: two overlapping roots, at 0 and at 8.
  function TwoRootsByte(i: nat): Byte {
    if i < 32 then i else if i == 32 || i == 40 then 1 else 0
  }

  function TwoRoots(): (s: Bytes)
    ensures |s| == 48 && forall i :: 0 <= i < 48 ==> s[i] == TwoRootsByte(i)
  {
    seq(48, i requires 0 <= i < 48 => TwoRootsByte(i))
  }

  lemma TwoRootsPlaces()
    ensures var script := TwoRoots();
            && !HasHeader(script) && Place(script, 0) && Place(script, 8)
            && LE32(script, 32) == 1 && LE32(script, 40) == 1
  {
    hide TwoRoots;
    var script := TwoRoots();
    TwoRootsFound();
    NoHeader(script);
    assert LE32(script, 32) == 1 && LE32(script, 40) == 1;
    assert Pow2(0) == 1;
    assert TreeSize(1);
  }

  lemma TwoRootsFound()
    ensures var script := TwoRoots(); First(script, script[0..32], 0) == 0 && First(script, script[8..40], 0) == 8
  {
    var script := TwoRoots();
    assert Occurs(script, script[0..32], 0);
    FirstFacts(script, script[8..40], 0);
    var f := First(script, script[8..40], 0);
    assert Occurs(script, script[8..40], 8);
    assert f <= 8;
    assert script[f] == script[f..f + 32][0] == script[8..40][0] == 8;
  }

  // One coinbase without the header that passes for two different blocks.
  lemma WithoutHeaderTwoBlocks(env: Env, chainId: int) returns (p: Proof, a: Uint256, b: Uint256)
    ensures p.coinbase == Some(Tx([TwoRoots()])) && !FixesRoot(TwoRoots())
    ensures a != b && Checks(env, p, a, chainId) && Checks(env, p, b, chainId)
  {
    hide Checks, First, LE32, TwoRoots;
    TwoRootsPlaces();
    p, a, b := TwoPlacesTwoBlocks(env, TwoRoots(), chainId, 0, 8);
  }

  lemma NoHeader(script: Bytes)
    requires forall i :: 0 <= i < |script| ==> script[i] < 32
    ensures First(script, MERGED_MINING_HEADER, 0) == |script|
  {
    FirstFacts(script, MERGED_MINING_HEADER, 0);
    forall i: nat | i < |script| ensures !Occurs(script, MERGED_MINING_HEADER, i) {
      if i + 4 <= |script| {
        assert script[i..i + 4][0] == script[i];
      }
    }
  }
}
