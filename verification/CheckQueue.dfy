/** The parallel check queue: one master adds batches of checks and then joins the
    workers until all are done.  Every section that holds the mutex is one atomic
    step; running a check is a step of its own, so every interleaving is a run of
    this state machine. */
module CheckQueue {
  import opened Basics
  import Limbs

  // A check together with the value its call returns.
  datatype Check = Check(id: nat, ok: bool)

  datatype Thread =
    | Outside                                              // the master, not in Wait
    | Entering                                             // before its first locked section
    | Executing(batch: seq<Check>, next: nat, fOk: bool)   // holds grabbed checks, `next` of them processed
    | Waiting(notified: bool)                              // asleep on its condition variable

  // A finished call of Wait.
  datatype Round = Round(added: multiset<Check>, ran: multiset<Check>, verdict: bool)

  datatype State = State(
    queue: seq<Check>,
    nIdle: int,
    nTotal: int,
    fAllOk: bool,
    nTodo: int,
    nBatchSize: nat,
    threads: seq<Thread>,         // thread 0 is the master
    added: multiset<Check>,       // added in this round
    accounted: multiset<Check>,   // taken off nTodo in this round
    ran: multiset<Check>,         // called in this round
    rounds: seq<Round>)

  datatype Step =
    | Add(checks: seq<Check>)     // the master adds a batch
    | Wait                        // the master calls Wait
    | Lock(t: nat)                // a thread enters its locked section
    | Run(t: nat)                 // a thread processes the next check of its batch
    | Wake(t: nat)                // a sleeping thread wakes up, notified or not

  const MASTER := 0

  ghost predicate Enabled(s: State, step: Step) {
    |s.threads| > 0 &&
    match step
    case Add(_) => s.threads[MASTER].Outside?
    case Wait => s.threads[MASTER].Outside?
    case Lock(t) => t < |s.threads|
      && (s.threads[t].Entering? || (s.threads[t].Executing? && s.threads[t].next == |s.threads[t].batch|))
    case Run(t) => t < |s.threads| && s.threads[t].Executing? && s.threads[t].next < |s.threads[t].batch|
    case Wake(t) => t < |s.threads| && s.threads[t].Waiting?
  }

  // How many checks to take: at least one, at most a batch, aiming at equal shares.
  // `sharers` is nTotal + nIdle + 1, positive in every reachable state.
  function GrabSize(queueSize: nat, nBatchSize: nat, sharers: int): (n: nat)
    requires queueSize > 0
    ensures 1 <= n <= queueSize && n <= Max(1, nBatchSize)
  {
    ShareBound(queueSize, sharers);
    var share := if sharers > 0 then queueSize / sharers else 0;
    Max(1, if nBatchSize < share then nBatchSize else share)
  }

  // Beyond one check a grab leaves as much for each of the others, and within a batch it is the
  // largest that does.
  lemma GrabExactly(queueSize: nat, nBatchSize: nat, sharers: int, n: nat)
    requires queueSize > 0 && sharers > 0 && n > 1
    ensures n <= GrabSize(queueSize, nBatchSize, sharers) <==> n <= nBatchSize && n * sharers <= queueSize
  {
    AtMostQuotient(n, queueSize, sharers);
  }

  lemma AtMostQuotient(n: nat, x: nat, d: nat)
    requires d > 0
    ensures n <= x / d <==> n * d <= x
  {
    assert x == d * (x / d) + x % d;
    if n <= x / d {
      Limbs.MulMonotone(d, n, x / d);
    } else {
      Limbs.MulMonotone(d, x / d + 1, n);
    }
  }

  lemma ShareBound(x: nat, d: int)
    ensures d > 0 ==> 0 <= x / d <= x
  {
    if d <= 0 {
      return;
    }
    var q := x / d;
    MulAtLeast(q, d);
    assert x == q * d + x % d;
  }

  lemma MulAtLeast(q: int, d: int)
    requires d >= 1 && q >= 0
    ensures q * d >= q
  {
    assert q * d == q * (d - 1) + q;
  }

  // The master goes home with the verdict; a new round starts.
  ghost function Return(s: State): State
    requires |s.threads| > 0
  {
    s.(nTotal := s.nTotal - 1,
       fAllOk := true,
       threads := s.threads[MASTER := Outside],
       rounds := s.rounds + [Round(s.added, s.ran, s.fAllOk)],
       added := multiset{}, accounted := multiset{}, ran := multiset{})
  }

  // From the top of the inner loop, with the lock held: return, sleep or grab.
  ghost function LoopTop(s: State, t: nat): State
    requires t < |s.threads|
  {
    if s.queue == [] then
      if t == MASTER && s.nTodo == 0 then Return(s)
      else s.(nIdle := s.nIdle + 1, threads := s.threads[t := Waiting(false)])
    else
      var n := GrabSize(|s.queue|, s.nBatchSize, s.nTotal + s.nIdle + 1);
      s.(queue := s.queue[..|s.queue| - n],
         threads := s.threads[t := Executing(s.queue[|s.queue| - n..], 0, s.fAllOk)])
  }

  // Book the batch just processed; a worker that booked the last check wakes the master.
  ghost function Account(s: State, t: nat): State
    requires t < |s.threads| && s.threads[t].Executing?
  {
    var th := s.threads[t];
    var todo := s.nTodo - |th.batch|;
    var threads := s.threads[t := Entering];
    var threads' := if todo == 0 && t != MASTER && threads[MASTER].Waiting? then threads[MASTER := Waiting(true)]
                    else threads;
    s.(fAllOk := s.fAllOk && th.fOk, nTodo := todo, threads := threads', accounted := s.accounted + multiset(th.batch))
  }

  // Process the next check of a batch: call it unless a failure is already known.
  ghost function RunNext(s: State, t: nat): State
    requires t < |s.threads| && s.threads[t].Executing? && s.threads[t].next < |s.threads[t].batch|
  {
    var th := s.threads[t];
    var check := th.batch[th.next];
    s.(threads := s.threads[t := Executing(th.batch, th.next + 1, th.fOk && check.ok)],
       ran := if th.fOk then s.ran + multiset{check} else s.ran)
  }

  ghost function Apply(s: State, step: Step): State
    requires Enabled(s, step)
  {
    match step
    case Add(checks) =>
      s.(queue := s.queue + checks, nTodo := s.nTodo + |checks|, added := s.added + multiset(checks))
    case Wait =>
      s.(threads := s.threads[MASTER := Entering])
    case Lock(t) =>
      if s.threads[t].Entering? then LoopTop(s.(nTotal := s.nTotal + 1), t)
      else LoopTop(Account(s, t), t)
    case Run(t) =>
      RunNext(s, t)
    case Wake(t) =>
      LoopTop(s.(nIdle := s.nIdle - 1, threads := s.threads[t := Entering]), t)
  }

  ghost predicate Initial(s: State) {
    && s.queue == [] && s.nIdle == 0 && s.nTotal == 0 && s.fAllOk && s.nTodo == 0
    && |s.threads| > 0 && s.threads[MASTER] == Outside
    && (forall t :: 0 < t < |s.threads| ==> s.threads[t] == Entering)
    && s.added == s.accounted == s.ran == multiset{} && s.rounds == []
  }

  // ---- the invariant ----

  // Checks grabbed and not yet accounted, over all threads.
  ghost function Held(ts: seq<Thread>): multiset<Check> {
    if ts == [] then multiset{} else HeldBy(ts[0]) + Held(ts[1..])
  }

  ghost function HeldBy(t: Thread): multiset<Check> {
    if t.Executing? then multiset(t.batch) else multiset{}
  }

  // Checks already processed in batches not yet accounted.
  ghost function Processed(ts: seq<Thread>): multiset<Check> {
    if ts == [] then multiset{} else ProcessedBy(ts[0]) + Processed(ts[1..])
  }

  ghost function ProcessedBy(t: Thread): multiset<Check> {
    if t.Executing? && t.next <= |t.batch| then multiset(t.batch[..t.next]) else multiset{}
  }

  ghost function Idle(ts: seq<Thread>): nat {
    if ts == [] then 0 else (if ts[0].Waiting? then 1 else 0) + Idle(ts[1..])
  }

  ghost function Inside(ts: seq<Thread>): nat {
    if ts == [] then 0 else (if ts[0].Waiting? || ts[0].Executing? then 1 else 0) + Inside(ts[1..])
  }

  lemma Shuffle(a: multiset<Check>, b: multiset<Check>, c: multiset<Check>, d: multiset<Check>, e: multiset<Check>)
    requires b + c == d + e
    ensures (a + b) + c == (a + d) + e
  {
    assert (a + b) + c == a + (b + c);
    assert (a + d) + e == a + (d + e);
  }

  lemma {:induction false} HeldUpdate(ts: seq<Thread>, i: nat, t: Thread)
    requires i < |ts|
    ensures Held(ts[i := t]) + HeldBy(ts[i]) == Held(ts) + HeldBy(t)
  {
    if i > 0 {
      assert ts[i := t][1..] == ts[1..][i - 1 := t];
      HeldUpdate(ts[1..], i - 1, t);
      Shuffle(HeldBy(ts[0]), Held(ts[1..][i - 1 := t]), HeldBy(ts[i]), Held(ts[1..]), HeldBy(t));
    } else {
      assert ts[i := t][1..] == ts[1..];
    }
  }

  lemma {:induction false} ProcessedUpdate(ts: seq<Thread>, i: nat, t: Thread)
    requires i < |ts|
    ensures Processed(ts[i := t]) + ProcessedBy(ts[i]) == Processed(ts) + ProcessedBy(t)
  {
    if i > 0 {
      assert ts[i := t][1..] == ts[1..][i - 1 := t];
      ProcessedUpdate(ts[1..], i - 1, t);
      Shuffle(ProcessedBy(ts[0]), Processed(ts[1..][i - 1 := t]), ProcessedBy(ts[i]), Processed(ts[1..]),
              ProcessedBy(t));
    } else {
      assert ts[i := t][1..] == ts[1..];
    }
  }

  lemma {:induction false} CountsUpdate(ts: seq<Thread>, i: nat, t: Thread)
    requires i < |ts|
    ensures Idle(ts[i := t]) + (if ts[i].Waiting? then 1 else 0) == Idle(ts) + (if t.Waiting? then 1 else 0)
    ensures Inside(ts[i := t]) + (if ts[i].Waiting? || ts[i].Executing? then 1 else 0) ==
              Inside(ts) + (if t.Waiting? || t.Executing? then 1 else 0)
  {
    if i > 0 {
      assert ts[i := t][1..] == ts[1..][i - 1 := t];
      CountsUpdate(ts[1..], i - 1, t);
    } else {
      assert ts[i := t][1..] == ts[1..];
    }
  }

  ghost predicate HasBad(m: multiset<Check>) {
    exists c :: c in m && !c.ok
  }

  // A batch in progress: results so far agree with its flag.
  ghost predicate ThreadOk(t: Thread, added: multiset<Check>) {
    t.Executing? ==>
      && 1 <= |t.batch| && t.next <= |t.batch|
      && (t.fOk ==> forall i :: 0 <= i < t.next ==> t.batch[i].ok)
      && (!t.fOk ==> HasBad(added))
  }

  ghost predicate NoFailure(s: State) {
    s.fAllOk && forall t :: 0 <= t < |s.threads| ==> s.threads[t].Executing? ==> s.threads[t].fOk
  }

  // The promise of Wait, for every finished round.
  ghost predicate RoundOk(r: Round) {
    && (r.verdict <==> forall c :: c in r.added ==> c.ok)
    && (r.verdict ==> r.ran == r.added)
  }

  // nTodo is what is queued plus what is grabbed and not accounted.
  ghost predicate Sums(s: State) {
    && s.nTodo == |s.queue| + |Held(s.threads)|
    && s.added == multiset(s.queue) + Held(s.threads) + s.accounted
    && s.nIdle == Idle(s.threads)
  }

  // A set flag means all accounted checks passed, an unset one that some added check fails.
  ghost predicate Flags(s: State) {
    && (s.fAllOk ==> forall c :: c in s.accounted ==> c.ok)
    && (!s.fAllOk ==> HasBad(s.added))
    && (forall t :: 0 <= t < |s.threads| ==> ThreadOk(s.threads[t], s.added))
  }

  // As long as nothing failed, every check processed was really called.
  ghost predicate AllRan(s: State) {
    NoFailure(s) ==> s.ran == s.accounted + Processed(s.threads)
  }

  // The master sleeps only while others have work in hand, or a wake-up is on its way.
  ghost predicate MasterOk(s: State) {
    && |s.threads| > 0
    && (forall t :: 0 < t < |s.threads| ==> !s.threads[t].Outside?)
    && (s.threads[MASTER].Waiting? ==> s.queue == [])
    && (s.threads[MASTER] == Waiting(false) ==> s.nTodo > 0)
  }

  ghost predicate RoundsOk(rounds: seq<Round>) {
    forall r :: r in rounds ==> RoundOk(r)
  }

  ghost predicate Inv(s: State) {
    Sums(s) && s.nTotal == Inside(s.threads) && Flags(s) && AllRan(s) && MasterOk(s) && RoundsOk(s.rounds)
  }

  // ---- the invariant is inductive ----

  // With the lock held and thread t between two phases: everything holds except that t,
  // shown as Entering, is already counted in nTotal.
  ghost predicate Locked(s: State, t: nat) {
    && t < |s.threads| && s.threads[t] == Entering
    && s.nTotal == Inside(s.threads) + 1
    && Inv(s.(nTotal := Inside(s.threads)))
  }

  lemma Cancel(a: multiset<Check>, b: multiset<Check>, c: multiset<Check>)
    requires a + c == b + c
    ensures a == b
  {
    assert a == (a + c) - c;
    assert b == (b + c) - c;
  }

  lemma PlusNone(m: multiset<Check>)
    ensures m + multiset{} == m
  {}

  // Moving one thread between phases in which it holds nothing.
  lemma SameHeld(ts: seq<Thread>, t: nat, th: Thread)
    requires t < |ts| && HeldBy(ts[t]) == HeldBy(th) == multiset{}
    requires ProcessedBy(ts[t]) == ProcessedBy(th) == multiset{}
    ensures Held(ts[t := th]) == Held(ts) && Processed(ts[t := th]) == Processed(ts)
  {
    HeldUpdate(ts, t, th);
    ProcessedUpdate(ts, t, th);
    PlusNone(Held(ts[t := th]));
    PlusNone(Held(ts));
    PlusNone(Processed(ts[t := th]));
    PlusNone(Processed(ts));
  }

  // A thread that held nothing takes a batch.
  lemma TakeBatch(ts: seq<Thread>, t: nat, batch: seq<Check>, fOk: bool)
    requires t < |ts| && ts[t] == Entering
    ensures var ts' := ts[t := Executing(batch, 0, fOk)];
            && Held(ts') == Held(ts) + multiset(batch) && |Held(ts')| == |Held(ts)| + |batch|
            && Processed(ts') == Processed(ts) && Inside(ts') == Inside(ts) + 1 && Idle(ts') == Idle(ts)
  {
    hide Held, Processed, Inside, Idle;
    var th := Executing(batch, 0, fOk);
    var ts' := ts[t := th];
    HeldUpdate(ts, t, th);
    ProcessedUpdate(ts, t, th);
    CountsUpdate(ts, t, th);
    assert batch[..0] == [];
    PlusNone(Held(ts'));
    PlusNone(Processed(ts'));
    PlusNone(Processed(ts));
    assert |multiset(batch)| == |batch|;
  }

  // Moving checks from the queue into a thread's hands loses none.
  lemma MoveBatch(queue: seq<Check>, k: nat, held: multiset<Check>, accounted: multiset<Check>)
    requires k <= |queue|
    ensures multiset(queue) + held + accounted == multiset(queue[..k]) + (held + multiset(queue[k..])) + accounted
  {
    assert queue == queue[..k] + queue[k..];
    assert multiset(queue) == multiset(queue[..k]) + multiset(queue[k..]);
  }

  lemma GrabSums(s: State, t: nat)
    requires Locked(s, t) && s.queue != []
    ensures Sums(LoopTop(s, t)) && LoopTop(s, t).nTotal == Inside(LoopTop(s, t).threads)
    ensures Processed(LoopTop(s, t).threads) == Processed(s.threads)
  {
    hide Flags, AllRan, MasterOk, RoundsOk, Held, Processed, Inside, Idle, GrabSize;
    var n := GrabSize(|s.queue|, s.nBatchSize, s.nTotal + s.nIdle + 1);
    TakeBatch(s.threads, t, s.queue[|s.queue| - n..], s.fAllOk);
    MoveBatch(s.queue, |s.queue| - n, Held(s.threads), s.accounted);
  }

  // The flags after one thread moved on, with the other threads untouched.
  lemma FlagsMove(s: State, s': State, t: nat)
    requires Flags(s) && t < |s.threads| && |s'.threads| == |s.threads| && s'.added == s.added
    requires forall i :: 0 <= i < |s.threads| && i != t ==> s'.threads[i] == s.threads[i] || !s'.threads[i].Executing?
    requires ThreadOk(s'.threads[t], s.added)
    requires s'.fAllOk ==> forall c :: c in s'.accounted ==> c.ok
    requires !s'.fAllOk ==> HasBad(s.added)
    ensures Flags(s')
  {}

  lemma GrabKeeps(s: State, t: nat)
    requires Locked(s, t) && s.queue != []
    ensures Inv(LoopTop(s, t))
  {
    hide Sums, RoundsOk, Flags, HasBad, Held, Processed, Inside, Idle, ThreadOk, GrabSize, NoFailure;
    GrabSums(s, t);
    GrabFlags(s, t);
    GrabNoFailure(s, t);
    BooksIgnoreTotal(s, Inside(s.threads));
    var s' := LoopTop(s, t);
    assert forall i :: 0 <= i < |s.threads| && i != t ==> s'.threads[i] == s.threads[i];
  }

  lemma GrabNoFailure(s: State, t: nat)
    requires t < |s.threads| && s.threads[t] == Entering && s.queue != []
    ensures NoFailure(LoopTop(s, t)) ==> NoFailure(s)
  {
    hide GrabSize;
    var s' := LoopTop(s, t);
    assert forall i :: 0 <= i < |s.threads| && i != t ==> s'.threads[i] == s.threads[i];
  }

  lemma GrabFlags(s: State, t: nat)
    requires Locked(s, t) && s.queue != []
    ensures Flags(LoopTop(s, t))
  {
    hide RoundsOk, AllRan, MasterOk, Held, Processed, Inside, Idle;
    var s' := LoopTop(s, t);
    assert ThreadOk(s'.threads[t], s.added);
    FlagsMove(s, s', t);
  }

  lemma SleepKeeps(s: State, t: nat)
    requires Locked(s, t) && s.queue == [] && !(t == MASTER && s.nTodo == 0)
    ensures Inv(LoopTop(s, t))
  {
    hide Held, Processed, Idle, Inside, RoundsOk;
    SameHeld(s.threads, t, Waiting(false));
    CountsUpdate(s.threads, t, Waiting(false));
    var s' := LoopTop(s, t);
    assert forall i :: 0 <= i < |s.threads| && i != t ==> s'.threads[i] == s.threads[i];
    assert NoFailure(s') ==> NoFailure(s);
  }

  // Wait returns: nothing is queued or held, so the flag is the verdict of this round and
  // the next round starts clean.
  lemma ReturnKeeps(s: State)
    requires Locked(s, MASTER) && s.queue == [] && s.nTodo == 0
    ensures Inv(Return(s))
    ensures forall t :: 0 <= t < |s.threads| ==> !s.threads[t].Executing?
  {
    assert Held(s.threads) == multiset{};
    NobodyHolds(s.threads);
    HeldUpdate(s.threads, MASTER, Outside);
    ProcessedUpdate(s.threads, MASTER, Outside);
    CountsUpdate(s.threads, MASTER, Outside);
    NothingProcessed(s.threads);
    assert s.added == s.accounted;
    assert RoundOk(Round(s.added, s.ran, s.fAllOk));
  }

  lemma {:induction false} NobodyHolds(ts: seq<Thread>)
    requires Held(ts) == multiset{}
    ensures forall t :: 0 <= t < |ts| ==> ts[t].Executing? ==> ts[t].batch == []
  {
    if ts != [] {
      assert |Held(ts)| == |HeldBy(ts[0])| + |Held(ts[1..])|;
      NobodyHolds(ts[1..]);
      forall t | 0 <= t < |ts| && ts[t].Executing? ensures ts[t].batch == [] {
        if t > 0 {
          assert ts[t] == ts[1..][t - 1];
        } else {
          assert |multiset(ts[0].batch)| == |ts[0].batch|;
        }
      }
    }
  }

  lemma {:induction false} NothingProcessed(ts: seq<Thread>)
    requires forall t :: 0 <= t < |ts| ==> !ts[t].Executing?
    ensures Processed(ts) == multiset{}
  {
    if ts != [] {
      NothingProcessed(ts[1..]);
    }
  }

  lemma LoopTopKeeps(s: State, t: nat)
    requires Locked(s, t)
    ensures Inv(LoopTop(s, t))
  {
    if s.queue != [] {
      GrabKeeps(s, t);
    } else if t == MASTER && s.nTodo == 0 {
      ReturnKeeps(s);
    } else {
      SleepKeeps(s, t);
    }
  }

  // Booking a finished batch.
  lemma AccountKeeps(s: State, t: nat)
    requires Inv(s) && t < |s.threads| && s.threads[t].Executing? && s.threads[t].next == |s.threads[t].batch|
    ensures Locked(Account(s, t), t)
  {
    hide Sums, RoundsOk, Flags, HasBad, Held, Processed, Inside, Idle, ThreadOk, AllRan, MasterOk, NoFailure;
    AccountSums(s, t);
    AccountFlags(s, t);
    AccountRan(s, t);
    AccountMaster(s, t);
    BooksIgnoreTotal(Account(s, t), Inside(Account(s, t).threads));
  }

  lemma BooksIgnoreTotal(s: State, n: nat)
    ensures var s' := s.(nTotal := n);
            Sums(s') == Sums(s) && Flags(s') == Flags(s) && AllRan(s') == AllRan(s) && MasterOk(s') == MasterOk(s)
  {
    hide HasBad, Held, Processed, Inside, Idle, ThreadOk;
  }

  lemma AccountFlags(s: State, t: nat)
    requires Inv(s) && t < |s.threads| && s.threads[t].Executing? && s.threads[t].next == |s.threads[t].batch|
    ensures Flags(Account(s, t))
  {
    hide Sums, RoundsOk, AllRan, MasterOk, Held, Processed, Inside, Idle;
    var s', th := Account(s, t), s.threads[t];
    assert ThreadOk(th, s.added);
    if s'.fAllOk {
      forall c | c in s'.accounted ensures c.ok {
        if c in multiset(th.batch) {
          assert c in th.batch;
        }
      }
    }
    FlagsMove(s, s', t);
  }

  lemma AccountRan(s: State, t: nat)
    requires Inv(s) && t < |s.threads| && s.threads[t].Executing? && s.threads[t].next == |s.threads[t].batch|
    ensures AllRan(Account(s, t))
  {
    hide Sums, RoundsOk, Flags, MasterOk, Held, Processed, Inside, Idle, NoFailure;
    AccountSums(s, t);
    AccountNoFailure(s, t);
    Rebook(s.accounted, Processed(s.threads), Processed(Account(s, t).threads), multiset(s.threads[t].batch));
  }

  lemma Rebook(accounted: multiset<Check>, p: multiset<Check>, p': multiset<Check>, batch: multiset<Check>)
    requires p' + batch == p
    ensures accounted + p == (accounted + batch) + p'
  {}

  lemma AccountNoFailure(s: State, t: nat)
    requires t < |s.threads| && s.threads[t].Executing?
    ensures NoFailure(Account(s, t)) ==> NoFailure(s)
  {
    var s' := Account(s, t);
    if NoFailure(s') {
      forall i | 0 <= i < |s.threads| && s.threads[i].Executing? ensures s.threads[i].fOk {
        assert i != t ==> s'.threads[i] == s.threads[i];
      }
    }
  }

  lemma AccountMaster(s: State, t: nat)
    requires Inv(s) && t < |s.threads| && s.threads[t].Executing? && s.threads[t].next == |s.threads[t].batch|
    ensures MasterOk(Account(s, t)) && Account(s, t).threads[t] == Entering
  {
    hide RoundsOk, Flags, AllRan, Held, Processed, Inside, Idle;
    AccountSums(s, t);
    var s' := Account(s, t);
    assert s'.nTodo >= 0;
    assert forall i :: 0 < i < |s.threads| && i != t ==> s'.threads[i] == s.threads[i];
  }

  lemma AccountSums(s: State, t: nat)
    requires Inv(s) && t < |s.threads| && s.threads[t].Executing? && s.threads[t].next == |s.threads[t].batch|
    ensures Sums(Account(s, t)) && Inside(Account(s, t).threads) + 1 == s.nTotal
    ensures Processed(Account(s, t).threads) + multiset(s.threads[t].batch) == Processed(s.threads)
  {
    hide Flags, AllRan, MasterOk, RoundsOk, Held, Processed, Inside, Idle;
    var s', th := Account(s, t), s.threads[t];
    var threads := s.threads[t := Entering];
    HeldUpdate(s.threads, t, Entering);
    ProcessedUpdate(s.threads, t, Entering);
    CountsUpdate(s.threads, t, Entering);
    PlusNone(Held(s.threads));
    PlusNone(Processed(s.threads));
    assert th.batch[..th.next] == th.batch;
    if s'.threads != threads {
      SameHeld(threads, MASTER, Waiting(true));
      CountsUpdate(threads, MASTER, Waiting(true));
    }
    assert Held(s'.threads) + multiset(th.batch) == Held(s.threads);
    assert |multiset(th.batch)| == |th.batch|;
    assert s.added == multiset(s.queue) + (Held(s'.threads) + multiset(th.batch)) + s.accounted;
  }

  lemma RunKeeps(s: State, t: nat)
    requires Inv(s) && Enabled(s, Run(t))
    ensures Inv(RunNext(s, t))
  {
    hide Sums, RoundsOk, Flags, AllRan, Held, Processed, Inside, Idle, ThreadOk, HasBad;
    RunSums(s, t);
    RunFlags(s, t);
    RunRan(s, t);
    var s' := RunNext(s, t);
    assert forall i :: 0 <= i < |s.threads| && i != t ==> s'.threads[i] == s.threads[i];
  }

  lemma RunRan(s: State, t: nat)
    requires Inv(s) && Enabled(s, Run(t))
    ensures AllRan(RunNext(s, t))
  {
    hide Sums, RoundsOk, Flags, MasterOk, Held, Processed, Inside, Idle, ThreadOk, HasBad;
    RunSums(s, t);
    var s' := RunNext(s, t);
    if NoFailure(s') {
      assert s'.threads[t].fOk;
      forall i | 0 <= i < |s.threads| && s.threads[i].Executing? ensures s.threads[i].fOk {
        assert i != t ==> s'.threads[i] == s.threads[i];
      }
      assert NoFailure(s);
    }
  }

  lemma RunFlags(s: State, t: nat)
    requires Inv(s) && Enabled(s, Run(t))
    ensures Flags(RunNext(s, t))
  {
    hide RoundsOk, AllRan, MasterOk, Held, Processed, Inside, Idle;
    var s', th := RunNext(s, t), s.threads[t];
    var check := th.batch[th.next];
    assert ThreadOk(th, s.added);
    assert check in th.batch && check in multiset(th.batch);
    HeldPart(s.threads, t);
    assert check in Held(s.threads) && check in s.added;
    assert ThreadOk(s'.threads[t], s.added);
    FlagsMove(s, s', t);
  }

  lemma RunSums(s: State, t: nat)
    requires Inv(s) && Enabled(s, Run(t))
    ensures Sums(RunNext(s, t)) && Inside(RunNext(s, t).threads) == s.nTotal
    ensures Processed(RunNext(s, t).threads) == Processed(s.threads) + multiset{s.threads[t].batch[s.threads[t].next]}
  {
    hide Flags, AllRan, MasterOk, RoundsOk, Held, Processed, Inside, Idle;
    var s', th := RunNext(s, t), s.threads[t];
    var th' := s'.threads[t];
    HeldUpdate(s.threads, t, th');
    ProcessedUpdate(s.threads, t, th');
    CountsUpdate(s.threads, t, th');
    assert th.batch[..th.next + 1] == th.batch[..th.next] + [th.batch[th.next]];
    assert ProcessedBy(th') == ProcessedBy(th) + multiset{th.batch[th.next]};
    Cancel(Held(s'.threads), Held(s.threads), multiset(th.batch));
    Cancel(Processed(s'.threads), Processed(s.threads) + multiset{th.batch[th.next]}, ProcessedBy(th));
  }

  // What one thread holds is part of what all hold.
  lemma {:induction false} HeldPart(ts: seq<Thread>, t: nat)
    requires t < |ts|
    ensures HeldBy(ts[t]) <= Held(ts)
  {
    if t > 0 {
      HeldPart(ts[1..], t - 1);
    }
  }

  lemma AddKeeps(s: State, checks: seq<Check>)
    requires Inv(s) && Enabled(s, Add(checks))
    ensures Inv(Apply(s, Add(checks)))
  {
    hide Held, Processed, Idle, Inside;
    var s' := Apply(s, Add(checks));
    assert HasBad(s.added) ==> HasBad(s'.added) by {
      if HasBad(s.added) {
        var c :| c in s.added && !c.ok;
        assert c in s'.added;
      }
    }
    assert forall t :: 0 <= t < |s.threads| ==> ThreadOk(s.threads[t], s.added);
    assert s'.added == multiset(s'.queue) + Held(s.threads) + s.accounted;
  }

  lemma WaitKeeps(s: State)
    requires Inv(s) && Enabled(s, Wait)
    ensures Inv(Apply(s, Wait))
  {
    hide Held, Processed, Idle, Inside, RoundsOk;
    SameHeld(s.threads, MASTER, Entering);
    CountsUpdate(s.threads, MASTER, Entering);
    var s' := Apply(s, Wait);
    assert forall i :: 0 < i < |s.threads| ==> s'.threads[i] == s.threads[i];
    assert NoFailure(s') ==> NoFailure(s);
  }

  lemma WakeKeeps(s: State, t: nat)
    requires Inv(s) && Enabled(s, Wake(t))
    ensures Inv(Apply(s, Wake(t)))
  {
    hide Held, Processed, Idle, Inside, RoundsOk, LoopTop;
    SameHeld(s.threads, t, Entering);
    CountsUpdate(s.threads, t, Entering);
    var s1 := s.(nIdle := s.nIdle - 1, threads := s.threads[t := Entering]);
    assert forall i :: 0 <= i < |s.threads| && i != t ==> s1.threads[i] == s.threads[i];
    assert NoFailure(s1) ==> NoFailure(s);
    LoopTopKeeps(s1, t);
  }

  lemma LockKeeps(s: State, t: nat)
    requires Inv(s) && Enabled(s, Lock(t))
    ensures Inv(Apply(s, Lock(t)))
  {
    hide Held, Processed, Idle, Inside, RoundsOk, LoopTop, Account, Flags, AllRan, Sums;
    if s.threads[t].Entering? {
      assert s.(nTotal := s.nTotal + 1).(nTotal := Inside(s.threads)) == s;
      LoopTopKeeps(s.(nTotal := s.nTotal + 1), t);
    } else {
      AccountKeeps(s, t);
      LoopTopKeeps(Account(s, t), t);
    }
  }

  lemma StepKeeps(s: State, step: Step)
    requires Inv(s) && Enabled(s, step)
    ensures Inv(Apply(s, step))
  {
    hide Inv;
    match step
    case Add(checks) => AddKeeps(s, checks);
    case Wait => WaitKeeps(s);
    case Lock(t) => LockKeeps(s, t);
    case Run(t) => RunKeeps(s, t);
    case Wake(t) => WakeKeeps(s, t);
  }

  // ---- runs ----

  ghost predicate CanRun(s: State, steps: seq<Step>)
    decreases |steps|
  {
    steps != [] ==>
      && Enabled(s, steps[0])
      && CanRun(Apply(s, steps[0]), steps[1..])
  }

  // The state after a schedule of steps.
  ghost function After(s: State, steps: seq<Step>): State
    requires CanRun(s, steps)
    decreases |steps|
  {
    if steps == [] then s else After(Apply(s, steps[0]), steps[1..])
  }

  lemma InitialInv(s: State)
    requires Initial(s)
    ensures Inv(s)
  {
    NothingAtStart(s.threads);
  }

  lemma {:induction false} NothingAtStart(ts: seq<Thread>)
    requires forall t :: 0 <= t < |ts| ==> ts[t].Outside? || ts[t].Entering?
    ensures Held(ts) == multiset{} && Processed(ts) == multiset{} && Idle(ts) == 0 && Inside(ts) == 0
  {
    if ts != [] {
      NothingAtStart(ts[1..]);
    }
  }

  lemma {:induction false} RunInv(s: State, steps: seq<Step>)
    requires Inv(s) && CanRun(s, steps)
    ensures Inv(After(s, steps))
    decreases |steps|
  {
    if steps != [] {
      hide Inv, Apply;
      StepKeeps(s, steps[0]);
      RunInv(Apply(s, steps[0]), steps[1..]);
    }
  }

  // Main result: under every interleaving, each Wait returned true exactly when all checks
  // added in its round pass, and then all of them were called.
  lemma VerdictsAreRight(s: State, steps: seq<Step>, r: Round)
    requires Initial(s) && CanRun(s, steps) && r in After(s, steps).rounds
    ensures r.verdict <==> forall c :: c in r.added ==> c.ok
    ensures r.verdict ==> r.ran == r.added
  {
    InitialInv(s);
    RunInv(s, steps);
    assert RoundOk(r);
  }

  // The bookkeeping of nTodo in every reachable state.
  lemma TodoIsExact(s: State, steps: seq<Step>)
    requires Initial(s) && CanRun(s, steps)
    ensures var x := After(s, steps); x.nTodo == |x.queue| + |Held(x.threads)|
  {
    InitialInv(s);
    RunInv(s, steps);
  }

  // A sleeping master is never stranded: a wake-up is pending, or some worker holds a batch
  // and can go on.
  lemma MasterNotStranded(s: State, steps: seq<Step>)
    requires Initial(s) && CanRun(s, steps) && After(s, steps).threads != []
    requires After(s, steps).threads[MASTER] == Waiting(false)
    ensures var x := After(s, steps);
            exists t :: 0 < t < |x.threads| && x.threads[t].Executing? && (Enabled(x, Run(t)) || Enabled(x, Lock(t)))
  {
    InitialInv(s);
    RunInv(s, steps);
    var x := After(s, steps);
    var t := SomeoneHolds(x.threads);
    assert ThreadOk(x.threads[t], x.added);
    assert Enabled(x, Run(t)) || Enabled(x, Lock(t));
  }

  lemma {:induction false} SomeoneHolds(ts: seq<Thread>) returns (t: nat)
    requires |Held(ts)| > 0
    ensures t < |ts| && ts[t].Executing?
  {
    if ts[0].Executing? {
      t := 0;
    } else {
      PlusNone(Held(ts[1..]));
      t := SomeoneHolds(ts[1..]);
      t := t + 1;
    }
  }

  // No batch of an earlier round is around when a round ends.
  lemma RoundsDoNotOverlap(s: State, steps: seq<Step>, step: Step)
    requires Initial(s) && CanRun(s, steps) && Enabled(After(s, steps), step)
    requires |Apply(After(s, steps), step).rounds| > |After(s, steps).rounds|
    ensures var x := Apply(After(s, steps), step);
            x.queue == [] && x.nTodo == 0 && x.fAllOk && forall t :: 0 <= t < |x.threads| ==> !x.threads[t].Executing?
  {
    hide After, CanRun, Initial, Flags, AllRan, MasterOk, RoundsOk, Held, Idle, Inside, LoopTop, Account;
    InitialInv(s);
    RunInv(s, steps);
    var y := After(s, steps);
    StepKeeps(y, step);
    var x := Apply(y, step);
    match step {
      case Lock(t) =>
        AccountRounds(y, t);
        LoopTopRound(if y.threads[t].Entering? then y.(nTotal := y.nTotal + 1) else Account(y, t), t);
      case Wake(t) =>
        LoopTopRound(y.(nIdle := y.nIdle - 1, threads := y.threads[t := Entering]), t);
      case _ =>
    }
    assert Held(x.threads) == multiset{};
    NobodyHolds(x.threads);
    BatchesNotEmpty(x);
  }

  lemma LoopTopRound(s: State, t: nat)
    requires t < |s.threads|
    ensures |LoopTop(s, t).rounds| > |s.rounds| ==> var x := LoopTop(s, t); x.queue == [] && x.nTodo == 0 && x.fAllOk
  {}

  lemma AccountRounds(s: State, t: nat)
    requires t < |s.threads|
    ensures s.threads[t].Executing? ==> Account(s, t).rounds == s.rounds && |Account(s, t).threads| == |s.threads|
  {}

  lemma BatchesNotEmpty(s: State)
    requires Flags(s)
    ensures forall t :: 0 <= t < |s.threads| ==> s.threads[t].Executing? ==> s.threads[t].batch != []
  {
    assert forall t :: 0 <= t < |s.threads| ==> ThreadOk(s.threads[t], s.added);
  }

  // ---- a call of Wait ends ----

  // What a thread can still do on its own.
  ghost function ThreadWork(t: Thread): (n: int)
  {
    match t
    case Outside => 0
    case Entering => 2
    case Executing(batch, next, _) => 2 + |batch| - next
    case Waiting(notified) => if notified then 1 else 0
  }

  ghost function ThreadsWork(ts: seq<Thread>): (n: int) {
    if ts == [] then 0 else ThreadWork(ts[0]) + ThreadsWork(ts[1..])
  }

  // Checks queued, checks held and not yet processed, batches to book and wake-ups on their way.
  ghost function Work(s: State): (n: int) {
    4 * |s.queue| + ThreadsWork(s.threads)
  }

  lemma {:induction false} ThreadsWorkUpdate(ts: seq<Thread>, i: nat, t: Thread)
    requires i < |ts|
    ensures ThreadsWork(ts[i := t]) == ThreadsWork(ts) + ThreadWork(t) - ThreadWork(ts[i])
  {
    if i > 0 {
      assert ts[i := t][1..] == ts[1..][i - 1 := t];
      ThreadsWorkUpdate(ts[1..], i - 1, t);
    } else {
      assert ts[i := t][1..] == ts[1..];
    }
  }

  lemma {:induction false} WorkSign(ts: seq<Thread>)
    requires forall t :: 0 <= t < |ts| ==> ts[t].Executing? ==> ts[t].next <= |ts[t].batch|
    ensures ThreadsWork(ts) >= 0
  {
    if ts != [] {
      WorkSign(ts[1..]);
    }
  }

  // A thread that wakes up without a notification and goes back to sleep.
  ghost predicate IdleWake(s: State, step: Step)
    requires Enabled(s, step)
  {
    step.Wake? && s.threads[step.t] == Waiting(false) && Apply(s, step).threads[step.t] == Waiting(false)
  }

  // From the top of the loop a thread returns, sleeps, or takes at least one check.
  lemma LoopTopWork(s: State, t: nat)
    requires t < |s.threads| && s.threads[t] == Entering
    ensures t < |LoopTop(s, t).threads|
    ensures Work(LoopTop(s, t)) <= Work(s) - (if s.queue == [] then 2 else 3)
    ensures s.queue == [] && !(t == MASTER && s.nTodo == 0) ==> LoopTop(s, t).threads[t] == Waiting(false)
  {
    hide ThreadsWork, GrabSize;
    if s.queue != [] {
      var n := GrabSize(|s.queue|, s.nBatchSize, s.nTotal + s.nIdle + 1);
      ThreadsWorkUpdate(s.threads, t, Executing(s.queue[|s.queue| - n..], 0, s.fAllOk));
    } else if t == MASTER && s.nTodo == 0 {
      ThreadsWorkUpdate(s.threads, t, Outside);
    } else {
      ThreadsWorkUpdate(s.threads, t, Waiting(false));
    }
  }

  lemma AccountWork(s: State, t: nat)
    requires t < |s.threads| && s.threads[t].Executing? && s.threads[t].next == |s.threads[t].batch|
    ensures |Account(s, t).threads| == |s.threads| && Account(s, t).threads[t] == Entering
    ensures Work(Account(s, t)) <= Work(s) + 1
  {
    hide ThreadsWork;
    ThreadsWorkUpdate(s.threads, t, Entering);
    ThreadsWorkUpdate(s.threads[t := Entering], MASTER, Waiting(true));
  }

  // Inside a call of Wait every step but an idle wake-up brings its end nearer.
  lemma WorkDrops(s: State, step: Step)
    requires MasterOk(s) && Enabled(s, step) && !step.Add? && !step.Wait?
    ensures Work(Apply(s, step)) <= Work(s)
    ensures !IdleWake(s, step) ==> Work(Apply(s, step)) < Work(s)
  {
    hide ThreadsWork, LoopTop, Account;
    match step {
      case Lock(t) =>
        if s.threads[t].Entering? {
          LoopTopWork(s.(nTotal := s.nTotal + 1), t);
        } else {
          AccountWork(s, t);
          LoopTopWork(Account(s, t), t);
        }
      case Run(t) =>
        var th := s.threads[t];
        ThreadsWorkUpdate(s.threads, t, Executing(th.batch, th.next + 1, th.fOk && th.batch[th.next].ok));
      case Wake(t) =>
        ThreadsWorkUpdate(s.threads, t, Entering);
        LoopTopWork(s.(nIdle := s.nIdle - 1, threads := s.threads[t := Entering]), t);
    }
  }

  // Some thread can take such a step as long as the master has not returned.
  lemma SomeoneCanGoOn(s: State) returns (step: Step)
    requires Inv(s) && !s.threads[MASTER].Outside?
    ensures Enabled(s, step) && !step.Add? && !step.Wait? && !IdleWake(s, step)
  {
    hide Held, Processed, Idle, Inside, RoundsOk, AllRan, LoopTop, Account;
    var t := MASTER;
    if s.threads[MASTER] == Waiting(false) {
      t := SomeoneHolds(s.threads);
    }
    assert ThreadOk(s.threads[t], s.added);
    if s.threads[t].Waiting? {
      step := Wake(t);
    } else if s.threads[t].Executing? && s.threads[t].next < |s.threads[t].batch| {
      step := Run(t);
    } else {
      step := Lock(t);
    }
  }

  // The steps of a run other than idle wake-ups.
  ghost function Productive(s: State, steps: seq<Step>): (n: nat)
    requires CanRun(s, steps)
    decreases |steps|
  {
    if steps == [] then 0
    else (if IdleWake(s, steps[0]) then 0 else 1) + Productive(Apply(s, steps[0]), steps[1..])
  }

  lemma {:induction false} ProductiveBound(s: State, steps: seq<Step>)
    requires Inv(s) && CanRun(s, steps) && forall i :: 0 <= i < |steps| ==> !steps[i].Add? && !steps[i].Wait?
    ensures Productive(s, steps) + Work(After(s, steps)) <= Work(s)
    decreases |steps|
  {
    hide Work, IdleWake, Apply, Sums, Flags, AllRan, RoundsOk, Inside;
    if steps != [] {
      WorkDrops(s, steps[0]);
      StepKeeps(s, steps[0]);
      ProductiveBound(Apply(s, steps[0]), steps[1..]);
    }
  }

  // Main result: from any reachable state, whatever the schedule, a call of Wait takes at most
  // Work steps besides idle wake-ups, and until it has returned another such step can be taken.
  lemma WaitEnds(start: State, before: seq<Step>, steps: seq<Step>)
    requires Initial(start) && CanRun(start, before) && CanRun(After(start, before), steps)
    requires forall i :: 0 <= i < |steps| ==> !steps[i].Add? && !steps[i].Wait?
    ensures var s := After(start, before); var x := After(s, steps);
            && Productive(s, steps) <= Work(s)
            && |x.threads| > 0
            && (x.threads[MASTER].Outside? ||
                exists step :: Enabled(x, step) && !step.Add? && !step.Wait? && !IdleWake(x, step))
  {
    hide Work, IdleWake, Apply, Sums, Flags, AllRan, RoundsOk, Inside, Initial, CanRun, Enabled;
    InitialInv(start);
    RunInv(start, before);
    var s := After(start, before);
    ProductiveBound(s, steps);
    RunInv(s, steps);
    var x := After(s, steps);
    WorkIsNat(x);
    if !x.threads[MASTER].Outside? {
      var step := SomeoneCanGoOn(x);
    }
  }

  lemma WorkIsNat(s: State)
    requires Flags(s)
    ensures Work(s) >= 0
  {
    hide ThreadsWork, HasBad;
    assert forall t :: 0 <= t < |s.threads| ==> ThreadOk(s.threads[t], s.added);
    WorkSign(s.threads);
  }
}
