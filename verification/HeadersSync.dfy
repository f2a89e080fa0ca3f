/** Headers presync and redownload: a peer's chain is downloaded twice, first to
    measure its work and to commit to it with one salted bit every 584 headers,
    then to release its headers once enough commitments above them were met. */
module HeadersSync {
  import opened Congruence

  const HEADER_COMMITMENT_PERIOD := 584
  const REDOWNLOAD_BUFFER_SIZE := 13959

  type Hash = nat

  // The AuxPoW payload is shared by reference; it is only carried along.
  datatype AuxPow = NoAuxPow | SharedAuxPow(ref: nat)

  datatype Header = Header(nVersion: int, hashPrevBlock: Hash, hashMerkleRoot: Hash, nTime: nat, nBits: nat,
                           nNonce: nat, auxpow: AuxPow)

  const NULL_HEADER := Header(0, 0, 0, 0, 0, 0, NoAuxPow)

  // A header without the hash of its predecessor.
  datatype CompressedHeader = CompressedHeader(nVersion: int, hashMerkleRoot: Hash, nTime: nat, nBits: nat,
                                               nNonce: nat, auxpow: AuxPow) {
    function GetFullHeader(hashPrevBlock: Hash): Header {
      Header(nVersion, hashPrevBlock, hashMerkleRoot, nTime, nBits, nNonce, auxpow)
    }
  }

  function Compress(h: Header): CompressedHeader {
    CompressedHeader(h.nVersion, h.hashMerkleRoot, h.nTime, h.nBits, h.nNonce, h.auxpow)
  }

  /** Block hash, difficulty rule, proof of a target and salted commitment bit are
      parameters; `start` is the block the peer's chain branches from. */
  datatype Params = Params(
    hash: Header -> Hash,
    permitted: (int, nat, nat) -> bool,
    proof: nat -> nat,
    bit: Hash -> bool,
    start: Header,
    startHeight: nat,
    startWork: nat,
    minimumWork: nat,
    commitOffset: nat,
    maxCommitments: nat)
  {
    // Is a commitment made at the height of the n-th header after the start?
    predicate CommitAt(n: nat) {
      (startHeight + n) % HEADER_COMMITMENT_PERIOD == commitOffset
    }

    // The header before position n of a chain from the start.
    ghost function Before(hs: seq<Header>, n: nat): Header
      requires n <= |hs|
    {
      if n == 0 then start else hs[n - 1]
    }

    ghost predicate LinkedAt(hs: seq<Header>, i: nat)
      requires i < |hs|
    {
      hs[i].hashPrevBlock == hash(Before(hs, i))
    }

    ghost predicate PermittedAt(hs: seq<Header>, i: nat)
      requires i < |hs|
    {
      permitted(startHeight + i + 1, Before(hs, i).nBits, hs[i].nBits)
    }

    // Every header names its predecessor, from the start on.
    ghost predicate Linked(hs: seq<Header>) {
      forall i {:trigger LinkedAt(hs, i)} :: 0 <= i < |hs| ==> LinkedAt(hs, i)
    }

    // Every change of difficulty is within the tolerance.
    ghost predicate Permitted(hs: seq<Header>) {
      forall i {:trigger PermittedAt(hs, i)} :: 0 <= i < |hs| ==> PermittedAt(hs, i)
    }

    // Chain work including the first n headers.
    ghost function Work(hs: seq<Header>, n: nat): nat
      requires n <= |hs|
    {
      if n == 0 then startWork else Work(hs, n - 1) + proof(hs[n - 1].nBits)
    }

    // Commitment bits of the first n headers.
    ghost function Bits(hs: seq<Header>, n: nat): seq<bool>
      requires n <= |hs|
    {
      if n == 0 then [] else Bits(hs, n - 1) + (if CommitAt(n) then [bit(hash(hs[n - 1]))] else [])
    }

    ghost function NumCommits(n: nat): nat {
      if n == 0 then 0 else NumCommits(n - 1) + (if CommitAt(n) then 1 else 0)
    }
  }

  lemma {:induction false} NumCommitsMonotone(p: Params, i: nat, n: nat)
    requires i <= n
    ensures p.NumCommits(i) <= p.NumCommits(n)
    decreases n - i
  {
    if i < n {
      NumCommitsMonotone(p, i, n - 1);
    }
  }

  lemma OneHit(d: int, offset: nat, j: nat)
    requires offset < HEADER_COMMITMENT_PERIOD && j < HEADER_COMMITMENT_PERIOD
    ensures (d + j) % HEADER_COMMITMENT_PERIOD == offset <==> j == (offset - d) % HEADER_COMMITMENT_PERIOD
  {
    SameIffEqualMod(d + j, offset, HEADER_COMMITMENT_PERIOD);
    SameIffEqualMod(j, offset - d, HEADER_COMMITMENT_PERIOD);
    assert d + j - offset == j - (offset - d);
  }

  // Every 584 heights there is one commitment.
  lemma {:induction false} OnePerPeriod(p: Params, n: nat)
    requires p.commitOffset < HEADER_COMMITMENT_PERIOD
    ensures p.NumCommits(n + HEADER_COMMITMENT_PERIOD) == p.NumCommits(n) + 1
  {
    hide Params.NumCommits;
    var d := p.startHeight + n + 1;
    var next := (p.commitOffset - d) % HEADER_COMMITMENT_PERIOD;
    forall i: nat | n < i <= n + HEADER_COMMITMENT_PERIOD ensures p.CommitAt(i) <==> i == n + 1 + next {
      OneHit(d, p.commitOffset, i - n - 1);
    }
    hide Params.CommitAt;
    NoneUntil(p, n, next);
    OneMore(p, n + next);
    NoneUntil(p, n + next + 1, HEADER_COMMITMENT_PERIOD - next - 1);
  }

  lemma OneMore(p: Params, n: nat)
    ensures p.NumCommits(n + 1) == p.NumCommits(n) + (if p.CommitAt(n + 1) then 1 else 0)
  {}

  // Between two commitment heights there is none.
  lemma {:induction false} NoneUntil(p: Params, n: nat, k: nat)
    requires forall i: nat :: n < i <= n + k ==> !p.CommitAt(i)
    ensures p.NumCommits(n + k) == p.NumCommits(n)
    decreases k
  {
    if k > 0 {
      NoneUntil(p, n, k - 1);
    }
  }

  // A full buffer means 23 commitments above the header released next.
  lemma CommitmentsAbove(p: Params, n: nat)
    requires p.commitOffset < HEADER_COMMITMENT_PERIOD
    ensures REDOWNLOAD_BUFFER_SIZE == 23 * HEADER_COMMITMENT_PERIOD + 527
    ensures p.NumCommits(n + REDOWNLOAD_BUFFER_SIZE) >= p.NumCommits(n) + 23
  {
    ManyPeriods(p, n, 23);
    NumCommitsMonotone(p, n + 23 * HEADER_COMMITMENT_PERIOD, n + REDOWNLOAD_BUFFER_SIZE);
  }

  lemma {:induction false} ManyPeriods(p: Params, n: nat, k: nat)
    requires p.commitOffset < HEADER_COMMITMENT_PERIOD
    ensures p.NumCommits(n + k * HEADER_COMMITMENT_PERIOD) == p.NumCommits(n) + k
  {
    if k > 0 {
      ManyPeriods(p, n, k - 1);
      OnePerPeriod(p, n + (k - 1) * HEADER_COMMITMENT_PERIOD);
    }
  }

  lemma {:induction false} BitsLength(p: Params, hs: seq<Header>, n: nat)
    requires n <= |hs|
    ensures |p.Bits(hs, n)| == p.NumCommits(n)
  {
    if n > 0 {
      BitsLength(p, hs, n - 1);
    }
  }

  // The bit committed for a height is found at that height's place in the queue.
  lemma {:induction false} BitOfHeight(p: Params, hs: seq<Header>, n: nat, i: nat)
    requires i < n <= |hs| && p.CommitAt(i + 1)
    ensures p.NumCommits(i) < |p.Bits(hs, n)| && p.Bits(hs, n)[p.NumCommits(i)] == p.bit(p.hash(hs[i]))
    decreases n
  {
    BitsLength(p, hs, n);
    BitsLength(p, hs, n - 1);
    if i < n - 1 {
      BitOfHeight(p, hs, n - 1, i);
    }
  }

  // A place in the queue belongs to a height that presync has seen.
  lemma QueuedHeightSeen(p: Params, hs: seq<Header>, i: nat)
    requires p.NumCommits(i) < |p.Bits(hs, |hs|)|
    ensures i < |hs|
  {
    BitsLength(p, hs, |hs|);
    if i >= |hs| {
      NumCommitsMonotone(p, |hs|, i);
    }
  }

  lemma {:induction false} WorkMonotone(p: Params, hs: seq<Header>, i: nat, n: nat)
    requires i <= n <= |hs|
    ensures p.Work(hs, i) <= p.Work(hs, n)
    decreases n - i
  {
    if i < n {
      WorkMonotone(p, hs, i, n - 1);
    }
  }

  lemma {:induction false} WorkPrefix(p: Params, hs: seq<Header>, more: seq<Header>, n: nat)
    requires n <= |hs|
    ensures p.Work(hs + more, n) == p.Work(hs, n)
  {
    if n > 0 {
      WorkPrefix(p, hs, more, n - 1);
    }
  }

  lemma {:induction false} BitsPrefix(p: Params, hs: seq<Header>, more: seq<Header>, n: nat)
    requires n <= |hs|
    ensures p.Bits(hs + more, n) == p.Bits(hs, n)
  {
    if n > 0 {
      BitsPrefix(p, hs, more, n - 1);
    }
  }

  lemma LinkedAdd(p: Params, hs: seq<Header>, h: Header)
    requires p.Linked(hs) && h.hashPrevBlock == p.hash(p.Before(hs, |hs|))
    ensures p.Linked(hs + [h])
  {
    var hs' := hs + [h];
    forall i: nat | i < |hs'| ensures p.LinkedAt(hs', i) {
      assert p.Before(hs', i) == p.Before(hs, i);
      assert i < |hs| ==> p.LinkedAt(hs, i);
    }
  }

  lemma PermittedAdd(p: Params, hs: seq<Header>, h: Header)
    requires p.Permitted(hs) && p.permitted(p.startHeight + |hs| + 1, p.Before(hs, |hs|).nBits, h.nBits)
    ensures p.Permitted(hs + [h])
  {
    var hs' := hs + [h];
    forall i: nat | i < |hs'| ensures p.PermittedAt(hs', i) {
      assert p.Before(hs', i) == p.Before(hs, i);
      assert i < |hs| ==> p.PermittedAt(hs, i);
    }
  }

  // ---- what holds of the history of a run ----

  // Below the work threshold both downloads agree on the salted bit at every commitment height.
  ghost predicate Agreement(p: Params, presync: seq<Header>, accepted: seq<Header>) {
    forall i {:trigger AgreeAt(p, presync, accepted, i)} :: 0 <= i < |accepted| ==> AgreeAt(p, presync, accepted, i)
  }

  ghost predicate AgreeAt(p: Params, presync: seq<Header>, accepted: seq<Header>, i: nat)
    requires i < |accepted|
  {
    p.CommitAt(i + 1) && p.Work(accepted, i + 1) < p.minimumWork ==>
      i < |presync| && p.bit(p.hash(accepted[i])) == p.bit(p.hash(presync[i]))
  }

  // Unless the redownloaded work has reached the minimum, every released header has at
  // least REDOWNLOAD_BUFFER_SIZE accepted successors.
  ghost predicate ReleaseSafe(p: Params, accepted: seq<Header>, released: seq<Header>) {
    p.Work(accepted, |accepted|) < p.minimumWork ==> released == [] || |released| + REDOWNLOAD_BUFFER_SIZE <= |accepted|
  }

  ghost predicate History(p: Params, presync: seq<Header>, accepted: seq<Header>, released: seq<Header>) {
    && p.Linked(presync)
    && p.Permitted(presync)
    && p.Linked(accepted)
    && p.Permitted(accepted)
    && released <= accepted
    && Agreement(p, presync, accepted)
    && ReleaseSafe(p, accepted, released)
  }

  // What presync takes: a linked, permitted chain with no more commitment heights than the limit.
  ghost predicate Presyncable(p: Params, hs: seq<Header>) {
    p.Linked(hs) && p.Permitted(hs) && p.NumCommits(|hs|) <= p.maxCommitments
  }

  // What redownload takes: a linked, permitted chain that agrees with the commitments.
  ghost predicate Redownloadable(p: Params, presync: seq<Header>, hs: seq<Header>) {
    p.Linked(hs) && p.Permitted(hs) && Agreement(p, presync, hs)
  }

  // Headers of one message follow each other; the caller has checked it.
  ghost predicate Continuous(p: Params, hs: seq<Header>) {
    forall i :: 0 < i < |hs| ==> hs[i].hashPrevBlock == p.hash(hs[i - 1])
  }

  function CompressAll(hs: seq<Header>): seq<CompressedHeader> {
    seq(|hs|, i requires 0 <= i < |hs| => Compress(hs[i]))
  }

  datatype State = PRESYNC | REDOWNLOAD | FINAL

  datatype ProcessingResult = ProcessingResult(powValidatedHeaders: seq<Header>, success: bool, requestMore: bool)

  class HeadersSyncState {
    const p: Params
    var state: State
    var currentChainWork: nat
    var lastHeaderReceived: Header
    var currentHeight: nat
    var headerCommitments: seq<bool>
    var redownloadedHeaders: seq<CompressedHeader>
    var bufferLastHeight: nat
    var bufferLastHash: Hash
    var bufferFirstPrevHash: Hash
    var redownloadChainWork: nat
    var processAllRemaining: bool

    ghost var presync: seq<Header>   // headers accepted during PRESYNC
    ghost var accepted: seq<Header>  // headers accepted during REDOWNLOAD
    ghost var released: seq<Header>  // headers handed to the caller

    ghost predicate PresyncInv()
      reads this
    {
      && accepted == [] && released == []
      && currentHeight == p.startHeight + |presync|
      && lastHeaderReceived == p.Before(presync, |presync|)
      && currentChainWork == p.Work(presync, |presync|)
      && headerCommitments == p.Bits(presync, |presync|)
      && |headerCommitments| <= p.maxCommitments
      && redownloadedHeaders == [] && !processAllRemaining
    }

    // The buffer holds the accepted headers not released yet; the queue holds the bits of
    // the heights not redownloaded yet; an empty buffer means nothing was redownloaded.
    ghost predicate RedownloadInv()
      reads this
    {
      && presync != [] && p.Work(presync, |presync|) >= p.minimumWork
      && |p.Bits(presync, |presync|)| <= p.maxCommitments
      && bufferLastHeight == p.startHeight + |accepted|
      && bufferLastHash == p.hash(p.Before(accepted, |accepted|))
      && |released| <= |accepted|
      && redownloadedHeaders == CompressAll(accepted[|released|..])
      && bufferFirstPrevHash == p.hash(p.Before(accepted, |released|))
      && redownloadChainWork == p.Work(accepted, |accepted|)
      && (processAllRemaining <==> accepted != [] && redownloadChainWork >= p.minimumWork)
      && (redownloadedHeaders == [] ==> accepted == [])
      && (!processAllRemaining ==>
            && p.NumCommits(|accepted|) <= |p.Bits(presync, |presync|)|
            && headerCommitments == p.Bits(presync, |presync|)[p.NumCommits(|accepted|)..])
    }

    ghost predicate Valid()
      reads this
    {
      && History(p, presync, accepted, released)
      && (state == PRESYNC ==> PresyncInv())
      && (state == REDOWNLOAD ==> RedownloadInv() && !processAllRemaining)
      && (state == FINAL ==> Cleared())
      && Bounded()
    }

    // What a peer can make us store: one bit for every commitment height up to the limit, and no
    // more headers than the buffer holds.
    ghost predicate Bounded()
      reads this
    {
      |headerCommitments| <= p.maxCommitments && |redownloadedHeaders| <= REDOWNLOAD_BUFFER_SIZE
    }

    // Nothing is kept of a sync that has ended.
    ghost predicate Cleared()
      reads this
    {
      && headerCommitments == [] && redownloadedHeaders == [] && lastHeaderReceived == NULL_HEADER
      && bufferLastHash == 0 && bufferFirstPrevHash == 0 && !processAllRemaining && currentHeight == 0
    }

    constructor (p: Params)
      ensures this.p == p && Valid() && state == PRESYNC && presync == []
    {
      this.p := p;
      state := PRESYNC;
      currentChainWork := p.startWork;
      lastHeaderReceived := p.start;
      currentHeight := p.startHeight;
      headerCommitments := [];
      redownloadedHeaders := [];
      bufferLastHeight := 0;
      bufferLastHash := 0;
      bufferFirstPrevHash := 0;
      redownloadChainWork := 0;
      processAllRemaining := false;
      presync, accepted, released := [], [], [];
    }

    method Finalize()
      requires History(p, presync, accepted, released)
      modifies this
      ensures Valid() && state == FINAL
      ensures presync == old(presync) && accepted == old(accepted) && released == old(released)
    {
      headerCommitments := [];
      lastHeaderReceived := NULL_HEADER;
      redownloadedHeaders := [];
      bufferLastHash := 0;
      bufferFirstPrevHash := 0;
      processAllRemaining := false;
      currentHeight := 0;
      state := FINAL;
    }

    method ValidateAndProcessSingleHeader(current: Header) returns (ok: bool)
      requires state == PRESYNC && History(p, presync, accepted, released) && PresyncInv()
      requires current.hashPrevBlock == p.hash(lastHeaderReceived)
      modifies this
      ensures History(p, presync, accepted, released) && state == PRESYNC && accepted == [] && released == []
      ensures ok ==> PresyncInv() && presync == old(presync) + [current]
      ensures !ok ==> presync == old(presync)
      ensures ok <==> && p.permitted(p.startHeight + |old(presync)| + 1, old(lastHeaderReceived).nBits, current.nBits)
                      && (p.CommitAt(|old(presync)| + 1) ==> |old(headerCommitments)| < p.maxCommitments)
    {
      hide History, Params.Bits, Params.Work;
      var nextHeight := currentHeight + 1;
      if !p.permitted(nextHeight, lastHeaderReceived.nBits, current.nBits) {
        return false;
      }
      if nextHeight % HEADER_COMMITMENT_PERIOD == p.commitOffset {
        headerCommitments := headerCommitments + [p.bit(p.hash(current))];
        if |headerCommitments| > p.maxCommitments {
          return false;
        }
      }
      currentChainWork := currentChainWork + p.proof(current.nBits);
      lastHeaderReceived := current;
      currentHeight := nextHeight;
      PresyncAdd(p, presync, current);
      presync := presync + [current];
      ok := true;
    }

    method ValidateAndStoreHeadersCommitments(headers: seq<Header>) returns (ok: bool)
      requires Valid() && state == PRESYNC && headers != [] && Continuous(p, headers)
      modifies this
      ensures History(p, presync, accepted, released) && released == [] && accepted == []
      ensures ok <==> Presyncable(p, old(presync) + headers)
      ensures ok ==> Valid() && presync == old(presync) + headers
      ensures ok ==> state == if p.Work(presync, |presync|) >= p.minimumWork then REDOWNLOAD else PRESYNC
    {
      hide History, Params.Bits, Params.Work, Params.NumCommits, Presyncable;
      ghost var chain := presync + headers;
      PresyncableStart(p, chain, presync, headers);
      if headers[0].hashPrevBlock != p.hash(lastHeaderReceived) {
        return false;
      }
      for i := 0 to |headers|
        invariant state == PRESYNC && History(p, presync, accepted, released) && PresyncInv()
        invariant presync == old(presync) + headers[..i]
        invariant i < |headers| ==> headers[i].hashPrevBlock == p.hash(lastHeaderReceived)
      {
        PresyncableAt(p, chain, presync, headers[i]);
        var one := ValidateAndProcessSingleHeader(headers[i]);
        if !one {
          return false;
        }
        assert headers[..i + 1] == headers[..i] + [headers[i]];
      }
      assert headers[..|headers|] == headers;
      PresyncableEnd(p, presync);
      if currentChainWork >= p.minimumWork {
        StartRedownload();
      }
      ok := true;
    }

    // The second phase starts from the same block, with the commitments of the first.
    method StartRedownload()
      requires state == PRESYNC && History(p, presync, accepted, released) && PresyncInv()
      requires presync != [] && p.Work(presync, |presync|) >= p.minimumWork
      modifies this
      ensures Valid() && state == REDOWNLOAD && presync == old(presync) && accepted == [] && released == []
    {
      hide History, Params.Bits, Params.Work;
      redownloadedHeaders := [];
      bufferLastHeight := p.startHeight;
      bufferFirstPrevHash := p.hash(p.start);
      bufferLastHash := p.hash(p.start);
      redownloadChainWork := p.startWork;
      state := REDOWNLOAD;
      NothingRedownloaded(p);
      assert p.Bits(presync, |presync|)[0..] == p.Bits(presync, |presync|);
    }

    // The check made of a redownloaded header, seen from the history.
    ghost predicate RedownloadOk(header: Header)
      reads this
    {
      var n := |accepted|;
      && header.hashPrevBlock == p.hash(p.Before(accepted, n))
      && p.permitted(p.startHeight + n + 1, p.Before(accepted, n).nBits, header.nBits)
      && (p.Work(accepted, n) + p.proof(header.nBits) < p.minimumWork && p.CommitAt(n + 1) ==>
            n < |presync| && p.bit(p.hash(header)) == p.bit(p.hash(presync[n])))
    }

    // At a commitment height the header's bit must be the stored one.
    method CheckCommitment(header: Header) returns (ok: bool)
      requires p.NumCommits(|accepted|) <= |p.Bits(presync, |presync|)|
      requires headerCommitments == p.Bits(presync, |presync|)[p.NumCommits(|accepted|)..]
      requires bufferLastHeight == p.startHeight + |accepted|
      modifies this`headerCommitments
      ensures ok <==> (p.CommitAt(|accepted| + 1) ==>
                       |accepted| < |presync| && p.bit(p.hash(header)) == p.bit(p.hash(presync[|accepted|])))
      ensures ok ==> p.NumCommits(|accepted| + 1) <= |p.Bits(presync, |presync|)|
                     && headerCommitments == p.Bits(presync, |presync|)[p.NumCommits(|accepted| + 1)..]
    {
      hide Params.Bits, Params.NumCommits;
      NextCommitment(p, presync, |accepted|);
      if (bufferLastHeight + 1) % HEADER_COMMITMENT_PERIOD == p.commitOffset {
        if |headerCommitments| == 0 {
          return false;
        }
        var commitment := p.bit(p.hash(header));
        var expected := headerCommitments[0];
        headerCommitments := headerCommitments[1..];
        if commitment != expected {
          return false;
        }
      }
      ok := true;
    }

    method ValidateAndStoreRedownloadedHeader(header: Header) returns (ok: bool)
      requires state == REDOWNLOAD && History(p, presync, accepted, released) && RedownloadInv()
      modifies this
      ensures state == REDOWNLOAD && presync == old(presync) && released == old(released)
      ensures History(p, presync, accepted, released)
      ensures ok <==> old(RedownloadOk(header))
      ensures ok ==> RedownloadInv() && accepted == old(accepted) + [header]
      ensures !ok ==> accepted == old(accepted)
    {
      hide History, Params.Bits, Params.Work, Params.NumCommits, CompressAll;
      var nextHeight := bufferLastHeight + 1;
      if header.hashPrevBlock != bufferLastHash {
        return false;
      }
      var previousBits := p.start.nBits;
      LastOfBuffer(accepted, |released|);
      if redownloadedHeaders != [] {
        previousBits := redownloadedHeaders[|redownloadedHeaders| - 1].nBits;
      }
      assert previousBits == p.Before(accepted, |accepted|).nBits;
      if !p.permitted(nextHeight, previousBits, header.nBits) {
        return false;
      }
      redownloadChainWork := redownloadChainWork + p.proof(header.nBits);
      if redownloadChainWork >= p.minimumWork {
        processAllRemaining := true;
      }
      if !processAllRemaining {
        var agreed := CheckCommitment(header);
        if !agreed {
          return false;
        }
      }
      StoreHeader(header);
      ok := true;
    }

    // All checks passed: the counters are already advanced, the header goes to the buffer.
    method StoreHeader(header: Header)
      requires state == REDOWNLOAD && History(p, presync, accepted, released) && RedownloadOk(header)
      requires Advanced(header)
      modifies this`redownloadedHeaders, this`bufferLastHeight, this`bufferLastHash, this`accepted
      ensures History(p, presync, accepted, released) && RedownloadInv()
      ensures accepted == old(accepted) + [header]
    {
      hide History, Params.Bits, Params.Work, Params.NumCommits, CompressAll;
      AcceptedAdd(p, presync, accepted, released, header);
      BufferAdd(accepted, |released|, header);
      redownloadedHeaders := redownloadedHeaders + [Compress(header)];
      bufferLastHeight := bufferLastHeight + 1;
      bufferLastHash := p.hash(header);
      accepted := accepted + [header];
    }

    ghost predicate Advanced(header: Header)
      reads this
    {
      && presync != [] && p.Work(presync, |presync|) >= p.minimumWork
      && |p.Bits(presync, |presync|)| <= p.maxCommitments
      && bufferLastHeight == p.startHeight + |accepted|
      && |released| <= |accepted|
      && redownloadedHeaders == CompressAll(accepted[|released|..])
      && bufferFirstPrevHash == p.hash(p.Before(accepted, |released|))
      && redownloadChainWork == p.Work(accepted, |accepted|) + p.proof(header.nBits)
      && (processAllRemaining <==> redownloadChainWork >= p.minimumWork)
      && (!processAllRemaining ==>
            && p.NumCommits(|accepted| + 1) <= |p.Bits(presync, |presync|)|
            && headerCommitments == p.Bits(presync, |presync|)[p.NumCommits(|accepted| + 1)..])
    }

    method PopHeadersReadyForAcceptance() returns (ret: seq<Header>)
      requires state == REDOWNLOAD && History(p, presync, accepted, released) && RedownloadInv() && accepted != []
      modifies this
      ensures state == REDOWNLOAD && presync == old(presync) && accepted == old(accepted)
      ensures released == old(released) + ret
      ensures History(p, presync, accepted, released)
      ensures processAllRemaining == old(processAllRemaining)
      ensures processAllRemaining ==> released == accepted && redownloadedHeaders == []
      ensures !processAllRemaining ==>
                && RedownloadInv() && redownloadedHeaders != [] && |redownloadedHeaders| <= REDOWNLOAD_BUFFER_SIZE
                && |accepted| <= |released| + REDOWNLOAD_BUFFER_SIZE
    {
      hide History, Params.Bits, Params.Work, Params.NumCommits, CompressAll;
      ret := [];
      LastOfBuffer(accepted, |released|);
      ReleasedStart(p, presync, accepted, released);
      while |redownloadedHeaders| > REDOWNLOAD_BUFFER_SIZE || (|redownloadedHeaders| > 0 && processAllRemaining)
        invariant state == REDOWNLOAD && presync == old(presync) && accepted == old(accepted)
        invariant released == old(released) + ret
        invariant History(p, presync, accepted, released) && |released| <= |accepted|
        invariant processAllRemaining == old(processAllRemaining) && redownloadChainWork == old(redownloadChainWork)
        invariant bufferLastHeight == old(bufferLastHeight) && bufferLastHash == old(bufferLastHash)
        invariant headerCommitments == old(headerCommitments)
        invariant redownloadedHeaders == CompressAll(accepted[|released|..])
        invariant |redownloadedHeaders| == |accepted| - |released|
        invariant bufferFirstPrevHash == p.hash(p.Before(accepted, |released|))
        invariant !processAllRemaining ==> redownloadedHeaders != []
        decreases |redownloadedHeaders|
      {
        FrontOfBuffer(p, presync, accepted, released);
        var full := redownloadedHeaders[0].GetFullHeader(bufferFirstPrevHash);
        ret := ret + [full];
        redownloadedHeaders := redownloadedHeaders[1..];
        bufferFirstPrevHash := p.hash(full);
        ReleaseNext(p, presync, accepted, released);
        released := released + [full];
      }
      if processAllRemaining {
        PrefixFull(p, presync, accepted, released);
      }
    }

    // One message from the peer.
    method ProcessNextHeaders(receivedHeaders: seq<Header>, fullHeadersMessage: bool) returns (ret: ProcessingResult)
      requires Valid() && Continuous(p, receivedHeaders)
      modifies this
      ensures Valid()
      ensures released == old(released) + ret.powValidatedHeaders
      ensures !ret.success ==> !ret.requestMore && ret.powValidatedHeaders == []
      ensures old(state) == FINAL || receivedHeaders == [] ==>
                !ret.success && state == old(state) && accepted == old(accepted) && presync == old(presync)
      ensures old(state) == PRESYNC && receivedHeaders != [] ==>
                && (ret.success <==> Presyncable(p, old(presync) + receivedHeaders))
                && (ret.success ==> presync == old(presync) + receivedHeaders && accepted == [])
                && var enough := p.Work(presync, |presync|) >= p.minimumWork;
                && (ret.requestMore <==> ret.success && (fullHeadersMessage || enough))
                && state == if !ret.requestMore then FINAL else if enough then REDOWNLOAD else PRESYNC
      ensures old(state) == REDOWNLOAD && receivedHeaders != [] ==>
                && presync == old(presync)
                && (ret.success <==> Redownloadable(p, presync, old(accepted) + receivedHeaders))
                && (ret.success ==> accepted == old(accepted) + receivedHeaders)
                && var enough := p.Work(accepted, |accepted|) >= p.minimumWork;
                && (ret.requestMore <==> ret.success && fullHeadersMessage && !enough)
                && state == (if ret.requestMore then REDOWNLOAD else FINAL)
                && (ret.success && enough ==> released == accepted)
                && (ret.success && !enough ==> |accepted| <= |released| + REDOWNLOAD_BUFFER_SIZE)
    {
      hide History, Params.Bits, Params.Work, Params.NumCommits, CompressAll, Presyncable, Redownloadable;
      ret := ProcessingResult([], false, false);
      if receivedHeaders == [] || state == FINAL {
        return;
      }
      if state == PRESYNC {
        var ok := ValidateAndStoreHeadersCommitments(receivedHeaders);
        ret := ret.(success := ok);
        if ok && (fullHeadersMessage || state == REDOWNLOAD) {
          ret := ret.(requestMore := true);
        }
      } else {
        var ok := StoreAll(receivedHeaders);
        ret := ret.(success := ok);
        if ok {
          var popped := PopHeadersReadyForAcceptance();
          ret := ret.(powValidatedHeaders := popped);
          if redownloadedHeaders == [] && processAllRemaining {
          } else if fullHeadersMessage {
            ret := ret.(requestMore := true);
          }
        }
      }
      if !(ret.success && ret.requestMore) {
        Finalize();
      }
    }

    // The loop over one message during REDOWNLOAD.
    method StoreAll(headers: seq<Header>) returns (ok: bool)
      requires Valid() && state == REDOWNLOAD && headers != []
      modifies this
      ensures state == REDOWNLOAD && presync == old(presync) && released == old(released)
      ensures History(p, presync, accepted, released)
      ensures ok <==> Redownloadable(p, presync, old(accepted) + headers)
      ensures ok ==> RedownloadInv() && accepted == old(accepted) + headers
    {
      hide History, Params.Bits, Params.Work, Params.NumCommits, CompressAll, RedownloadInv, Redownloadable;
      ghost var chain := accepted + headers;
      for i := 0 to |headers|
        invariant state == REDOWNLOAD && presync == old(presync) && released == old(released)
        invariant History(p, presync, accepted, released) && RedownloadInv() && accepted == old(accepted) + headers[..i]
      {
        RedownloadableAt(p, presync, chain, accepted, headers[i]);
        var one := ValidateAndStoreRedownloadedHeader(headers[i]);
        if !one {
          return false;
        }
        assert headers[..i + 1] == headers[..i] + [headers[i]];
      }
      assert headers[..|headers|] == headers;
      RedownloadableEnd(p, presync, accepted, released);
      ok := true;
    }
  }

  lemma NothingRedownloaded(p: Params)
    ensures p.Work([], 0) == p.startWork && p.NumCommits(0) == 0 && CompressAll([]) == []
  {}

  lemma PresyncAdd(p: Params, presync: seq<Header>, h: Header)
    requires History(p, presync, [], []) && h.hashPrevBlock == p.hash(p.Before(presync, |presync|))
    requires p.permitted(p.startHeight + |presync| + 1, p.Before(presync, |presync|).nBits, h.nBits)
    ensures History(p, presync + [h], [], [])
    ensures p.Work(presync + [h], |presync + [h]|) == p.Work(presync, |presync|) + p.proof(h.nBits)
    ensures p.Bits(presync + [h], |presync + [h]|) ==
            p.Bits(presync, |presync|) + (if p.CommitAt(|presync| + 1) then [p.bit(p.hash(h))] else [])
  {
    LinkedAdd(p, presync, h);
    PermittedAdd(p, presync, h);
    WorkPrefix(p, presync, [h], |presync|);
    BitsPrefix(p, presync, [h], |presync|);
  }

  lemma PresyncableStart(p: Params, chain: seq<Header>, presync: seq<Header>, headers: seq<Header>)
    requires chain == presync + headers && headers != []
    ensures Presyncable(p, chain) ==> headers[0].hashPrevBlock == p.hash(p.Before(presync, |presync|))
  {
    if Presyncable(p, chain) {
      assert p.LinkedAt(chain, |presync|);
      assert p.Before(chain, |presync|) == p.Before(presync, |presync|);
    }
  }

  // The next header of a chain that presync can take passes its check.
  lemma PresyncableAt(p: Params, chain: seq<Header>, presync: seq<Header>, h: Header)
    requires presync <= chain && |presync| < |chain| && h == chain[|presync|]
    ensures Presyncable(p, chain) ==>
              && p.permitted(p.startHeight + |presync| + 1, p.Before(presync, |presync|).nBits, h.nBits)
              && (p.CommitAt(|presync| + 1) ==> |p.Bits(presync, |presync|)| < p.maxCommitments)
  {
    if Presyncable(p, chain) {
      assert p.PermittedAt(chain, |presync|);
      assert p.Before(chain, |presync|) == p.Before(presync, |presync|);
      BitsLength(p, presync, |presync|);
      NumCommitsMonotone(p, |presync| + 1, |chain|);
    }
  }

  lemma PresyncableEnd(p: Params, presync: seq<Header>)
    requires History(p, presync, [], []) && |p.Bits(presync, |presync|)| <= p.maxCommitments
    ensures Presyncable(p, presync)
  {
    BitsLength(p, presync, |presync|);
  }

  lemma LastOfBuffer(accepted: seq<Header>, n: nat)
    requires n <= |accepted|
    ensures |CompressAll(accepted[n..])| == |accepted| - n
    ensures n < |accepted| ==> CompressAll(accepted[n..])[|accepted| - n - 1].nBits == accepted[|accepted| - 1].nBits
  {}

  lemma BufferAdd(accepted: seq<Header>, n: nat, h: Header)
    requires n <= |accepted|
    ensures CompressAll((accepted + [h])[n..]) == CompressAll(accepted[n..]) + [Compress(h)]
  {
    assert (accepted + [h])[n..] == accepted[n..] + [h];
  }

  // The front of the queue is the bit presync stored for the very next height.
  lemma NextCommitment(p: Params, presync: seq<Header>, n: nat)
    requires p.NumCommits(n) <= |p.Bits(presync, |presync|)|
    ensures p.NumCommits(n + 1) == p.NumCommits(n) + (if p.CommitAt(n + 1) then 1 else 0)
    ensures p.CommitAt(n + 1) ==> (p.NumCommits(n) < |p.Bits(presync, |presync|)| <==> n < |presync|)
    ensures p.CommitAt(n + 1) && n < |presync| ==>
              p.Bits(presync, |presync|)[p.NumCommits(n)] == p.bit(p.hash(presync[n]))
  {
    if p.CommitAt(n + 1) {
      if n < |presync| {
        BitOfHeight(p, presync, |presync|, n);
      } else if p.NumCommits(n) < |p.Bits(presync, |presync|)| {
        QueuedHeightSeen(p, presync, n);
      }
    }
  }

  lemma AcceptedAdd(p: Params, presync: seq<Header>, accepted: seq<Header>, released: seq<Header>, h: Header)
    requires History(p, presync, accepted, released) && h.hashPrevBlock == p.hash(p.Before(accepted, |accepted|))
    requires p.permitted(p.startHeight + |accepted| + 1, p.Before(accepted, |accepted|).nBits, h.nBits)
    requires p.Work(accepted, |accepted|) + p.proof(h.nBits) < p.minimumWork && p.CommitAt(|accepted| + 1) ==>
               |accepted| < |presync| && p.bit(p.hash(h)) == p.bit(p.hash(presync[|accepted|]))
    ensures History(p, presync, accepted + [h], released)
    ensures p.Work(accepted + [h], |accepted + [h]|) == p.Work(accepted, |accepted|) + p.proof(h.nBits)
  {
    hide Agreement;
    LinkedAdd(p, accepted, h);
    PermittedAdd(p, accepted, h);
    WorkPrefix(p, accepted, [h], |accepted|);
    AgreementAdd(p, presync, accepted, h);
  }

  lemma AgreementAdd(p: Params, presync: seq<Header>, accepted: seq<Header>, h: Header)
    requires Agreement(p, presync, accepted)
    requires p.Work(accepted, |accepted|) + p.proof(h.nBits) < p.minimumWork && p.CommitAt(|accepted| + 1) ==>
               |accepted| < |presync| && p.bit(p.hash(h)) == p.bit(p.hash(presync[|accepted|]))
    ensures Agreement(p, presync, accepted + [h])
  {
    var accepted' := accepted + [h];
    WorkPrefix(p, accepted, [h], |accepted|);
    forall i: nat | i < |accepted'| ensures AgreeAt(p, presync, accepted', i) {
      if i < |accepted| {
        WorkPrefix(p, accepted, [h], i + 1);
        assert AgreeAt(p, presync, accepted, i) && accepted'[i] == accepted[i];
      } else {
        assert accepted'[i] == h && p.Work(accepted', i + 1) == p.Work(accepted, |accepted|) + p.proof(h.nBits);
      }
    }
  }

  lemma ReleasedStart(p: Params, presync: seq<Header>, accepted: seq<Header>, released: seq<Header>)
    requires History(p, presync, accepted, released)
    ensures released <= accepted
  {}

  // The front of the buffer, given its predecessor's hash, is the accepted header itself.
  lemma FrontOfBuffer(p: Params, presync: seq<Header>, accepted: seq<Header>, released: seq<Header>)
    requires History(p, presync, accepted, released) && |released| < |accepted|
    ensures var buffer := CompressAll(accepted[|released|..]);
            && |buffer| > 0
            && buffer[0].GetFullHeader(p.hash(p.Before(accepted, |released|))) == accepted[|released|]
            && buffer[1..] == CompressAll(accepted[|released| + 1..])
  {
    assert p.LinkedAt(accepted, |released|);
    assert accepted[|released|..][1..] == accepted[|released| + 1..];
  }

  // Releasing the next header is safe when the work is there or enough headers stay behind.
  lemma ReleaseNext(p: Params, presync: seq<Header>, accepted: seq<Header>, released: seq<Header>)
    requires History(p, presync, accepted, released) && |released| < |accepted|
    requires p.Work(accepted, |accepted|) >= p.minimumWork || |accepted| - |released| > REDOWNLOAD_BUFFER_SIZE
    ensures History(p, presync, accepted, released + [accepted[|released|]])
  {}

  lemma PrefixFull(p: Params, presync: seq<Header>, accepted: seq<Header>, released: seq<Header>)
    requires History(p, presync, accepted, released) && |released| == |accepted|
    ensures released == accepted
  {}

  // The next header of a chain that redownload can take passes its check.
  lemma RedownloadableAt(p: Params, presync: seq<Header>, chain: seq<Header>, accepted: seq<Header>, h: Header)
    requires accepted <= chain && |accepted| < |chain| && h == chain[|accepted|]
    ensures Redownloadable(p, presync, chain) ==>
              var n := |accepted|;
              && h.hashPrevBlock == p.hash(p.Before(accepted, n))
              && p.permitted(p.startHeight + n + 1, p.Before(accepted, n).nBits, h.nBits)
              && (p.Work(accepted, n) + p.proof(h.nBits) < p.minimumWork && p.CommitAt(n + 1) ==>
                    n < |presync| && p.bit(p.hash(h)) == p.bit(p.hash(presync[n])))
  {
    if Redownloadable(p, presync, chain) {
      var n := |accepted|;
      assert p.LinkedAt(chain, n) && p.PermittedAt(chain, n);
      assert p.Before(chain, n) == p.Before(accepted, n);
      assert AgreeAt(p, presync, chain, n);
      assert chain == accepted + chain[n..];
      WorkPrefix(p, accepted, chain[n..], n);
    }
  }

  lemma RedownloadableEnd(p: Params, presync: seq<Header>, accepted: seq<Header>, released: seq<Header>)
    requires History(p, presync, accepted, released)
    ensures Redownloadable(p, presync, accepted)
  {}

  // ---- whole runs ----

  datatype Message = Message(headers: seq<Header>, full: bool)

  // Against any peer: the headers handed out, over all messages, are a prefix of the
  // redownloaded chain, field for field.
  method AnyPeer(p: Params, messages: seq<Message>) returns (hs: HeadersSyncState, all: seq<Header>)
    requires forall i :: 0 <= i < |messages| ==> Continuous(p, messages[i].headers)
    ensures hs.p == p && hs.Valid() && all == hs.released
    ensures p.Linked(hs.accepted) && p.Permitted(hs.accepted) && all <= hs.accepted
    ensures Agreement(p, hs.presync, hs.accepted) && ReleaseSafe(p, hs.accepted, all)
    ensures && p.commitOffset < HEADER_COMMITMENT_PERIOD && all != []
            && p.Work(hs.accepted, |hs.accepted|) < p.minimumWork ==>
              p.NumCommits(|hs.accepted|) >= p.NumCommits(|all|) + 23
    ensures hs.Bounded()
  {
    hs := new HeadersSyncState(p);
    all := [];
    for i := 0 to |messages|
      invariant hs.p == p && hs.Valid() && all == hs.released
      invariant fresh(hs)
    {
      var ret := hs.ProcessNextHeaders(messages[i].headers, messages[i].full);
      all := all + ret.powValidatedHeaders;
    }
    if && p.commitOffset < HEADER_COMMITMENT_PERIOD && all != []
       && p.Work(hs.accepted, |hs.accepted|) < p.minimumWork
    {
      CommitmentsAbove(p, |all|);
      NumCommitsMonotone(p, |all| + REDOWNLOAD_BUFFER_SIZE, |hs.accepted|);
    }
  }

  ghost function Concat(batches: seq<seq<Header>>): seq<Header> {
    if batches == [] then [] else Concat(batches[..|batches| - 1]) + batches[|batches| - 1]
  }

  lemma {:induction false} ConcatPrefix(batches: seq<seq<Header>>, n: nat)
    requires n <= |batches|
    ensures Concat(batches[..n]) <= Concat(batches)
    decreases |batches|
  {
    if n < |batches| {
      ConcatPrefix(batches[..|batches| - 1], n);
      assert batches[..|batches| - 1][..n] == batches[..n];
    } else {
      assert batches[..n] == batches;
    }
  }

  // A chain served in messages of any size; all are full except possibly the last.
  ghost predicate Serves(batches: seq<seq<Header>>, chain: seq<Header>) {
    Concat(batches) == chain && forall i :: 0 <= i < |batches| ==> batches[i] != []
  }

  lemma {:induction false} PresyncablePrefix(p: Params, chain: seq<Header>, hs: seq<Header>)
    requires Presyncable(p, chain) && hs <= chain
    ensures Presyncable(p, hs)
  {
    forall i: nat | i < |hs| ensures p.LinkedAt(hs, i) && p.PermittedAt(hs, i) {
      assert p.LinkedAt(chain, i) && p.PermittedAt(chain, i);
      assert p.Before(hs, i) == p.Before(chain, i);
    }
    NumCommitsMonotone(p, |hs|, |chain|);
  }

  // Once presync has seen enough work, every prefix of the same chain can be redownloaded, also one
  // that reaches further than presync did.
  lemma HonestRedownload(p: Params, chain: seq<Header>, presync: seq<Header>, hs: seq<Header>)
    requires Presyncable(p, chain) && presync <= chain && hs <= chain
    requires p.Work(presync, |presync|) >= p.minimumWork
    ensures Redownloadable(p, presync, hs)
  {
    hide Agreement;
    PresyncablePrefix(p, chain, hs);
    HonestAgreement(p, chain, presync, hs);
  }

  lemma HonestAgreement(p: Params, chain: seq<Header>, presync: seq<Header>, hs: seq<Header>)
    requires presync <= chain && hs <= chain && p.Work(presync, |presync|) >= p.minimumWork
    ensures Agreement(p, presync, hs)
  {
    hide Params.Work, Params.CommitAt;
    WorkSame(p, chain, presync, |presync|);
    forall i: nat | i < |hs| ensures AgreeAt(p, presync, hs, i) {
      WorkSame(p, chain, hs, i + 1);
      if |presync| <= i {
        WorkMonotone(p, chain, |presync|, i + 1);
      }
    }
  }

  lemma WorkSame(p: Params, chain: seq<Header>, hs: seq<Header>, n: nat)
    requires hs <= chain && n <= |hs|
    ensures p.Work(hs, n) == p.Work(chain, n)
  {
    assert chain == hs + chain[|hs|..];
    WorkPrefix(p, hs, chain[|hs|..], n);
  }

  // The first download ends with the message that reaches the minimum work.
  method ServeFirst(hs: HeadersSyncState, batches: seq<seq<Header>>, lastFull: bool, ghost chain: seq<Header>)
    requires hs.Valid() && hs.state == PRESYNC && hs.presync == [] && chain != [] && Serves(batches, chain)
    requires Presyncable(hs.p, chain) && hs.p.Work(chain, |chain|) >= hs.p.minimumWork
    modifies hs
    ensures hs.Valid() && hs.state == REDOWNLOAD && hs.presync <= chain && hs.accepted == [] && hs.released == []
  {
    hide History, Params.Work, Params.Bits, Params.NumCommits, CompressAll, Presyncable, Redownloadable;
    var i := 0;
    assert batches[..0] == [];
    while hs.state == PRESYNC
      invariant hs.Valid() && i <= |batches| && hs.presync == Concat(batches[..i]) <= chain
      invariant hs.accepted == [] && hs.released == [] && hs.state != FINAL
      invariant hs.state == PRESYNC && i > 0 ==> hs.p.Work(hs.presync, |hs.presync|) < hs.p.minimumWork
      decreases hs.state == PRESYNC, |batches| - i
    {
      assert batches[..|batches|] == batches;
      assert i < |batches|;
      ConcatPrefix(batches, i + 1);
      assert batches[..i + 1][..i] == batches[..i];
      PresyncablePrefix(hs.p, chain, hs.presync + batches[i]);
      BatchContinuous(hs.p, chain, hs.presync, batches[i]);
      if i + 1 == |batches| {
        assert batches[..i + 1] == batches;
      }
      var ret := hs.ProcessNextHeaders(batches[i], i < |batches| - 1 || lastFull);
      i := i + 1;
    }
  }

  // The second download ends with the message that reaches the minimum work again.
  method ServeAgain(hs: HeadersSyncState, batches: seq<seq<Header>>, lastFull: bool, ghost chain: seq<Header>)
    returns (served: nat, all: seq<Header>)
    requires hs.Valid() && hs.state == REDOWNLOAD && hs.accepted == [] && hs.released == [] && Serves(batches, chain)
    requires Presyncable(hs.p, chain) && hs.presync <= chain && hs.p.Work(chain, |chain|) >= hs.p.minimumWork
    requires chain != []
    modifies hs
    ensures served <= |batches| && hs.state == FINAL && hs.released == all == Concat(batches[..served])
    ensures hs.p.Work(all, |all|) >= hs.p.minimumWork
  {
    hide History, Params.Work, Params.Bits, Params.NumCommits, CompressAll, Presyncable, Redownloadable;
    served, all := 0, [];
    assert batches[..0] == [];
    while hs.state == REDOWNLOAD
      invariant hs.Valid() && served <= |batches| && hs.presync == old(hs.presync) && all == hs.released
      invariant hs.accepted == Concat(batches[..served]) && hs.state != PRESYNC
      invariant hs.state == REDOWNLOAD && served > 0 ==> hs.p.Work(hs.accepted, |hs.accepted|) < hs.p.minimumWork
      invariant hs.state == FINAL ==>
                  hs.released == hs.accepted && hs.p.Work(hs.released, |hs.released|) >= hs.p.minimumWork
      decreases hs.state != FINAL, |batches| - served
    {
      assert batches[..|batches|] == batches;
      assert served < |batches|;
      ConcatPrefix(batches, served + 1);
      assert batches[..served + 1][..served] == batches[..served];
      HonestRedownload(hs.p, chain, hs.presync, hs.accepted + batches[served]);
      BatchContinuous(hs.p, chain, hs.accepted, batches[served]);
      if served + 1 == |batches| {
        assert batches[..served + 1] == batches;
      }
      var ret := hs.ProcessNextHeaders(batches[served], served < |batches| - 1 || lastFull);
      all := all + ret.powValidatedHeaders;
      served := served + 1;
    }
  }

  // A peer that serves a permitted chain with enough work twice, in messages cut differently each
  // time, passes every check; the sync completes and hands out all it served the second time.
  method HonestPeer(p: Params, ghost chain: seq<Header>, first: seq<seq<Header>>, again: seq<seq<Header>>,
                    firstFull: bool, againFull: bool)
    returns (hs: HeadersSyncState, served: nat, all: seq<Header>)
    requires Presyncable(p, chain) && chain != [] && p.Work(chain, |chain|) >= p.minimumWork
    requires Serves(first, chain) && Serves(again, chain)
    ensures hs.p == p && hs.state == FINAL && served <= |again|
    ensures all == Concat(again[..served]) <= chain && p.Work(all, |all|) >= p.minimumWork
  {
    hs := new HeadersSyncState(p);
    ServeFirst(hs, first, firstFull, chain);
    served, all := ServeAgain(hs, again, againFull, chain);
    ConcatPrefix(again, served);
  }

  // A stretch of a linked chain is continuous.
  lemma BatchContinuous(p: Params, chain: seq<Header>, before: seq<Header>, batch: seq<Header>)
    requires Presyncable(p, chain) && before + batch <= chain
    ensures Continuous(p, batch)
  {
    forall i | 0 < i < |batch| ensures batch[i].hashPrevBlock == p.hash(batch[i - 1]) {
      assert p.LinkedAt(chain, |before| + i);
      assert batch[i] == (before + batch)[|before| + i] && batch[i - 1] == (before + batch)[|before| + i - 1];
    }
  }
}
