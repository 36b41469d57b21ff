/**
  The queue of script checks shared by a master and any number of workers.

  Every step of State is one critical section of the code, or the execution of one check
  outside the lock, so a run is any interleaving of them. Thread 0 is the master. Condition
  variables may wake a thread for no reason at any time.
*/
module CheckQueue {
  import opened Wrappers

  type Check = nat

  /**
    Where a thread is. A worker starts Fresh; the master is Outside between calls of Wait.
    AtHead is only passed through, inside a critical section.
  */
  datatype Thread =
    | Outside
    | Fresh
    | AtHead
    | Waiting
    | Woken
    | Working(batch: seq<Check>, done: nat, ok: bool)

  /** What a call of Wait reported, with the checks added for it and those that ran. */
  datatype Report = Report(ok: bool, added: multiset<Check>, ran: multiset<Check>)

  /**
    queue, nTodo, nIdle, nTotal and fAllOk are the fields the mutex guards. The rest is
    history since the last report: checks added, finished, run, and deleted without running.
  */
  datatype State = State(
    queue: seq<Check>, nTodo: int, nIdle: int, nTotal: int, fAllOk: bool,
    threads: seq<Thread>,
    added: multiset<Check>, finished: multiset<Check>, ran: multiset<Check>, skipped: multiset<Check>,
    last: Option<Report>)

  // ----- Steps -----

  function Min(a: int, b: int): int { if a < b then a else b }
  function Max(a: int, b: int): int { if a < b then b else a }

  /** How many checks a thread takes at once: at least one, and no more than there are. */
  function BatchSize(queued: nat, total: int, idle: int, batchSize: nat): (n: int)
    ensures n >= 1 && (queued >= 1 ==> n <= queued)
  {
    AtMost(queued, Max(1, total + idle + 1));
    Max(1, Min(batchSize, queued / Max(1, total + idle + 1)))
  }

  lemma AtMost(n: nat, d: int)
    requires d >= 1
    ensures 0 <= n / d <= n
  {
    var q := n / d;
    assert n == q * d + n % d;
    assert q * d == q + q * (d - 1);
    if q >= 0 { assert q * (d - 1) >= 0; }
  }

  /** The batch is a fair share of the queue, or one check, and is never larger than allowed. */
  lemma BatchIsFair(queued: nat, total: int, idle: int, batchSize: nat)
    requires total >= 0 && idle >= 0
    ensures var n, sharers := BatchSize(queued, total, idle, batchSize), total + idle + 1;
      && (n > 1 ==> n <= batchSize && n * sharers <= queued)
      && (n < batchSize ==> (n + 1) * sharers > queued)
  {
    var n, sharers := BatchSize(queued, total, idle, batchSize), total + idle + 1;
    var q := queued / sharers;
    Share(queued, sharers);
    hide BatchSize;
    Larger(n, q, sharers);
    Larger(q + 1, n + 1, sharers);
  }

  lemma Larger(a: int, b: int, d: nat)
    ensures a <= b ==> a * d <= b * d
  {
    if a <= b { assert (b - a) * d >= 0; }
  }

  lemma Share(n: nat, d: nat)
    requires d > 0
    ensures n / d * d <= n < (n / d + 1) * d && (n / d == 0 <==> n < d)
  {
    assert n == n / d * d + n % d;
    assert (n / d + 1) * d == n / d * d + d;
  }

  /** Thread i may take the lock: it is new in the loop, woken, or done with its batch. */
  predicate CanEnter(s: State, i: nat) {
    && i < |s.threads|
    && (s.threads[i].Fresh? || s.threads[i].Woken?
        || (s.threads[i].Working? && s.threads[i].done == |s.threads[i].batch|))
  }

  /** The results of a finished batch entered into the shared state. */
  function HandOver(s: State, i: nat): State
    requires i < |s.threads| && s.threads[i].Working?
  {
    var t := s.threads[i];
    s.(fAllOk := s.fAllOk && t.ok, nTodo := s.nTodo - |t.batch|, finished := s.finished + multiset(t.batch),
       threads := s.threads[i := AtHead])
  }

  /** The clean-up of the previous turn, or the entry into the loop, or the return from wait. */
  function CleanUp(s: State, i: nat): State
    requires CanEnter(s, i)
  {
    match s.threads[i]
    case Fresh => s.(nTotal := s.nTotal + 1, threads := s.threads[i := AtHead])
    case Woken => s.(nIdle := s.nIdle - 1, threads := s.threads[i := AtHead])
    case Working(batch, _, ok) =>
      var t := HandOver(s, i);
      // The last finished batch notifies the master.
      if t.nTodo == 0 && i != 0 && t.threads[0].Waiting? then t.(threads := t.threads[0 := Woken]) else t
  }

  /** From the head of the loop to leaving the critical section. */
  function Proceed(s: State, i: nat, batchSize: nat): State
    requires i < |s.threads|
  {
    if s.queue == [] then
      if i == 0 && s.nTodo == 0 then
        State([], 0, s.nIdle, s.nTotal - 1, true, s.threads[0 := Outside],
              multiset{}, multiset{}, multiset{}, multiset{}, Some(Report(s.fAllOk, s.added, s.ran)))
      else s.(nIdle := s.nIdle + 1, threads := s.threads[i := Waiting])
    else
      var keep := |s.queue| - BatchSize(|s.queue|, s.nTotal, s.nIdle, batchSize);
      s.(queue := s.queue[..keep], threads := s.threads[i := Working(s.queue[keep..], 0, s.fAllOk)])
  }

  function Enter(s: State, i: nat, batchSize: nat): State
    requires CanEnter(s, i)
  {
    Proceed(CleanUp(s, i), i, batchSize)
  }

  predicate CanRun(s: State, i: nat) {
    i < |s.threads| && s.threads[i].Working? && s.threads[i].done < |s.threads[i].batch|
  }

  /** One check of a batch: it runs unless one has failed, and is deleted either way. */
  function RunOne(s: State, i: nat, outcome: Check -> bool): State
    requires CanRun(s, i)
  {
    var t := s.threads[i];
    var c := t.batch[t.done];
    if t.ok then
      s.(threads := s.threads[i := t.(done := t.done + 1, ok := outcome(c))], ran := s.ran + multiset{c})
    else
      s.(threads := s.threads[i := t.(done := t.done + 1)], skipped := s.skipped + multiset{c})
  }

  /** Add by the master, which wakes one waiting worker for one check and all for more. */
  function Add(s: State, checks: seq<Check>, woken: set<nat>): State {
    s.(queue := s.queue + checks, nTodo := s.nTodo + |checks|, added := s.added + multiset(checks),
       threads := seq(|s.threads|, i requires 0 <= i < |s.threads| =>
         if i in woken && s.threads[i].Waiting? then Woken else s.threads[i]))
  }

  ghost predicate Notified(s: State, checks: seq<Check>, woken: set<nat>) {
    && (forall i | i in woken :: 0 < i < |s.threads| && s.threads[i].Waiting?)
    && (|checks| == 0 ==> woken == {})
    && (|checks| == 1 ==> |woken| <= 1 && (woken == {} ==> forall i | 0 < i < |s.threads| :: !s.threads[i].Waiting?))
    && (|checks| > 1 ==> forall i | 0 < i < |s.threads| && s.threads[i].Waiting? :: i in woken)
  }

  datatype Step =
    | Entering(i: nat)
    | Running(i: nat)
    | Adding(checks: seq<Check>, woken: set<nat>)
    | CallWait
    | Spurious(i: nat)

  ghost predicate Enabled(s: State, step: Step) {
    match step
    case Entering(i) => CanEnter(s, i)
    case Running(i) => CanRun(s, i)
    case Adding(checks, woken) => |s.threads| > 0 && s.threads[0].Outside? && Notified(s, checks, woken)
    case CallWait => |s.threads| > 0 && s.threads[0].Outside?
    case Spurious(i) => i < |s.threads| && s.threads[i].Waiting?
  }

  ghost function Next(s: State, step: Step, batchSize: nat, outcome: Check -> bool): State
    requires Enabled(s, step)
  {
    match step
    case Entering(i) => Enter(s, i, batchSize)
    case Running(i) => RunOne(s, i, outcome)
    case Adding(checks, woken) => Add(s, checks, woken)
    case CallWait => s.(threads := s.threads[0 := Fresh])
    case Spurious(i) => s.(threads := s.threads[i := Woken])
  }

  function Initial(workers: nat): State {
    State([], 0, 0, 0, true, [Outside] + seq(workers, _ => Fresh), multiset{}, multiset{}, multiset{}, multiset{}, None)
  }

  // ----- Sums over the threads -----

  ghost function Batch(t: Thread): seq<Check> {
    if t.Working? then t.batch else []
  }

  ghost function Done(t: Thread): seq<Check> {
    if t.Working? && t.done <= |t.batch| then t.batch[..t.done] else []
  }

  /** How often a check occurs in a part of all threads. */
  ghost function Held(threads: seq<Thread>, part: Thread -> seq<Check>, c: Check): nat {
    if threads == [] then 0 else multiset(part(threads[0]))[c] + Held(threads[1..], part, c)
  }

  ghost function Count(threads: seq<Thread>, weight: Thread -> nat): nat {
    if threads == [] then 0 else weight(threads[0]) + Count(threads[1..], weight)
  }

  lemma {:induction false} HeldUpdate(threads: seq<Thread>, i: nat, t: Thread, part: Thread -> seq<Check>, c: Check)
    requires i < |threads|
    ensures Held(threads[i := t], part, c) + multiset(part(threads[i]))[c] ==
      Held(threads, part, c) + multiset(part(t))[c]
    decreases |threads|
  {
    if i == 0 {
      assert threads[0 := t][1..] == threads[1..];
    } else {
      HeldUpdate(threads[1..], i - 1, t, part, c);
      assert threads[i := t][1..] == threads[1..][i - 1 := t];
    }
  }

  lemma {:induction false} CountUpdate(threads: seq<Thread>, i: nat, t: Thread, weight: Thread -> nat)
    requires i < |threads|
    ensures Count(threads[i := t], weight) + weight(threads[i]) == Count(threads, weight) + weight(t)
    decreases |threads|
  {
    if i == 0 {
      assert threads[0 := t][1..] == threads[1..];
    } else {
      CountUpdate(threads[1..], i - 1, t, weight);
      assert threads[i := t][1..] == threads[1..][i - 1 := t];
    }
  }

  /** Threads that agree part by part hold the same. */
  lemma {:induction false} HeldSame(a: seq<Thread>, b: seq<Thread>, part: Thread -> seq<Check>, c: Check)
    requires |a| == |b| && forall i | 0 <= i < |a| :: part(a[i]) == part(b[i])
    ensures Held(a, part, c) == Held(b, part, c)
    decreases |a|
  {
    if a != [] { HeldSame(a[1..], b[1..], part, c); }
  }

  lemma {:induction false} CountSame(a: seq<Thread>, b: seq<Thread>, weight: Thread -> nat)
    requires |a| == |b| && forall i | 0 <= i < |a| :: weight(a[i]) == weight(b[i])
    ensures Count(a, weight) == Count(b, weight)
    decreases |a|
  {
    if a != [] { CountSame(a[1..], b[1..], weight); }
  }

  /** If the sum is positive, some thread adds to it. */
  lemma {:induction false} SomeThread(threads: seq<Thread>, weight: Thread -> nat) returns (i: nat)
    requires Count(threads, weight) > 0
    ensures i < |threads| && weight(threads[i]) > 0
    decreases |threads|
  {
    if weight(threads[0]) > 0 {
      i := 0;
    } else {
      var j := SomeThread(threads[1..], weight);
      i := j + 1;
    }
  }

  // ----- Once a check has failed -----

  /** The checks a thread is still going to run. */
  ghost function EagerWeight(t: Thread): nat {
    if t.Working? && t.ok && t.done <= |t.batch| then |t.batch| - t.done else 0
  }

  /**
    Once a failure has been entered, no batch taken later runs any check: until Wait returns,
    every step that runs a check uses up one of those that were already under way.
  */
  lemma FailureStops(s: State, step: Step, batchSize: nat, outcome: Check -> bool)
    requires Shape(s.threads) && Enabled(s, step) && !s.fAllOk
    requires step.Entering? ==> !Enter(s, step.i, batchSize).threads[0].Outside? || s.threads[0].Outside?
    ensures var t := Next(s, step, batchSize, outcome);
      && !t.fAllOk && |t.threads| == |s.threads|
      && |t.ran| + Count(t.threads, EagerWeight) <= |s.ran| + Count(s.threads, EagerWeight)
  {
    match step
    case Entering(i) => EnterEager(s, i, batchSize);
    case Running(i) => CountUpdate(s.threads, i, RunOne(s, i, outcome).threads[i], EagerWeight);
    case Adding(checks, woken) => CountSame(s.threads, Add(s, checks, woken).threads, EagerWeight);
    case CallWait => CountUpdate(s.threads, 0, Fresh, EagerWeight);
    case Spurious(i) => CountUpdate(s.threads, i, Woken, EagerWeight);
  }

  lemma EnterEager(s: State, i: nat, batchSize: nat)
    requires Shape(s.threads) && CanEnter(s, i) && !s.fAllOk
    requires !Enter(s, i, batchSize).threads[0].Outside? || s.threads[0].Outside?
    ensures var t := Enter(s, i, batchSize);
      && !t.fAllOk && |t.threads| == |s.threads| && t.ran == s.ran
      && Count(t.threads, EagerWeight) <= Count(s.threads, EagerWeight)
  {
    var c := CleanUp(s, i);
    CountUpdate(s.threads, i, AtHead, EagerWeight);
    CountUpdate(s.threads[i := AtHead], 0, Woken, EagerWeight);
    CountUpdate(c.threads, i, Proceed(c, i, batchSize).threads[i], EagerWeight);
  }

  /** Several new checks wake every waiting worker, and a single one wakes one of them. */
  lemma AddWakes(s: State, checks: seq<Check>, woken: set<nat>)
    requires Notified(s, checks, woken)
    ensures var t := Add(s, checks, woken);
      && (|checks| > 1 ==> forall i | 0 < i < |t.threads| :: !t.threads[i].Waiting?)
      && (|checks| == 1 ==>
          (exists i | 0 < i < |s.threads| :: s.threads[i].Waiting?) ==>
          exists i | 0 < i < |s.threads| :: s.threads[i].Waiting? && t.threads[i].Woken?)
  {
    if |checks| == 1 && woken != {} {
      var i :| i in woken;
      assert Add(s, checks, woken).threads[i].Woken?;
    }
  }

  // ----- The invariant -----

  ghost predicate InLoop(t: Thread) {
    t.Waiting? || t.Woken? || t.Working? || t.AtHead?
  }

  ghost function IdleWeight(t: Thread): nat { if t.Waiting? || t.Woken? then 1 else 0 }
  ghost function BatchWeight(t: Thread): nat { |Batch(t)| }
  ghost function LoopWeight(t: Thread): nat { if InLoop(t) then 1 else 0 }

  /** No check has failed so far, in the results reported and in those still private. */
  ghost predicate Clean(s: State) {
    s.fAllOk && forall i | 0 <= i < |s.threads| :: s.threads[i].Working? ==> s.threads[i].ok
  }

  ghost predicate Shape(threads: seq<Thread>) {
    && |threads| > 0
    && (forall i | 0 < i < |threads| :: !threads[i].Outside?)
    && (forall i | 0 <= i < |threads| :: threads[i].Working? ==>
        threads[i].batch != [] && threads[i].done <= |threads[i].batch|)
  }

  /** nIdle and nTotal count threads, and nTodo counts checks queued or in a thread's batch. */
  ghost predicate Counters(s: State) {
    && s.nIdle == Count(s.threads, IdleWeight)
    && s.nTotal == Count(s.threads, LoopWeight)
    && s.nTodo == |s.queue| + Count(s.threads, BatchWeight)
  }

  /** Every check added is in exactly one place: queued, in one batch, or finished. */
  ghost predicate Places(s: State) {
    && (forall c: Check :: s.added[c] == multiset(s.queue)[c] + Held(s.threads, Batch, c) + s.finished[c])
    && (forall c: Check :: s.ran[c] + s.skipped[c] == s.finished[c] + Held(s.threads, Done, c))
  }

  ghost predicate Results(s: State, outcome: Check -> bool) {
    && (Clean(s) ==> s.skipped == multiset{} && forall c | c in s.ran :: outcome(c))
    && (!Clean(s) ==> exists c :: c in s.ran && !outcome(c))
  }

  /** A blocked master has unfinished checks, all of them in the batches of workers. */
  ghost predicate MasterCovered(s: State)
    requires |s.threads| > 0
  {
    s.threads[0].Waiting? ==> s.queue == [] && s.nTodo > 0
  }

  ghost predicate Inv(s: State, outcome: Check -> bool) {
    Core(s, outcome) && |s.threads| > 0 && MasterCovered(s)
  }

  /** Inv without the clause on a blocked master. */
  ghost predicate Core(s: State, outcome: Check -> bool) {
    && Shape(s.threads) && Counters(s) && Places(s) && Results(s, outcome)
    && (s.last.Some? ==> Faithful(s.last.value, outcome))
  }

  /** What the result of Wait means. */
  ghost predicate Faithful(r: Report, outcome: Check -> bool) {
    && r.ran <= r.added
    && (r.ok ==> r.ran == r.added && forall c | c in r.added :: outcome(c))
    && (!r.ok ==> exists c :: c in r.added && c in r.ran && !outcome(c))
  }

  // ----- Every step keeps the invariant -----

  lemma InitialInv(workers: nat, outcome: Check -> bool)
    ensures Inv(Initial(workers), outcome)
  {
    var s := Initial(workers);
    NothingCounted(s.threads, BatchWeight);
    NothingCounted(s.threads, IdleWeight);
    NothingCounted(s.threads, LoopWeight);
    forall c: Check ensures Held(s.threads, Batch, c) == 0 && Held(s.threads, Done, c) == 0 {
      NothingHeld(s.threads, Batch, c);
      NothingHeld(s.threads, Done, c);
    }
  }

  lemma {:induction false} NothingHeld(threads: seq<Thread>, part: Thread -> seq<Check>, c: Check)
    requires forall i | 0 <= i < |threads| :: part(threads[i]) == []
    ensures Held(threads, part, c) == 0
    decreases |threads|
  {
    if threads != [] { NothingHeld(threads[1..], part, c); }
  }

  lemma {:induction false} NothingCounted(threads: seq<Thread>, weight: Thread -> nat)
    requires forall i | 0 <= i < |threads| :: weight(threads[i]) == 0
    ensures Count(threads, weight) == 0
    decreases |threads|
  {
    if threads != [] { NothingCounted(threads[1..], weight); }
  }

  /** The sums after one thread changes. */
  lemma CountsChanged(threads: seq<Thread>, i: nat, t: Thread)
    requires i < |threads|
    ensures Count(threads[i := t], IdleWeight) == Count(threads, IdleWeight) - IdleWeight(threads[i]) + IdleWeight(t)
    ensures Count(threads[i := t], LoopWeight) == Count(threads, LoopWeight) - LoopWeight(threads[i]) + LoopWeight(t)
    ensures Count(threads[i := t], BatchWeight) ==
      Count(threads, BatchWeight) - BatchWeight(threads[i]) + BatchWeight(t)
  {
    CountUpdate(threads, i, t, IdleWeight);
    CountUpdate(threads, i, t, LoopWeight);
    CountUpdate(threads, i, t, BatchWeight);
  }

  lemma HeldChanged(threads: seq<Thread>, i: nat, t: Thread)
    requires i < |threads|
    ensures forall c: Check :: Held(threads[i := t], Batch, c) ==
              Held(threads, Batch, c) - multiset(Batch(threads[i]))[c] + multiset(Batch(t))[c]
    ensures forall c: Check :: Held(threads[i := t], Done, c) ==
              Held(threads, Done, c) - multiset(Done(threads[i]))[c] + multiset(Done(t))[c]
  {
    forall c: Check
      ensures Held(threads[i := t], Batch, c) ==
        Held(threads, Batch, c) - multiset(Batch(threads[i]))[c] + multiset(Batch(t))[c]
      ensures Held(threads[i := t], Done, c) ==
        Held(threads, Done, c) - multiset(Done(threads[i]))[c] + multiset(Done(t))[c]
    {
      HeldUpdate(threads, i, t, Batch, c);
      HeldUpdate(threads, i, t, Done, c);
    }
  }

  /** What running one check does not change. */
  lemma RunningFrame(s: State, i: nat, outcome: Check -> bool)
    requires CanRun(s, i)
    ensures var r := RunOne(s, i, outcome);
      && r.queue == s.queue && r.nTodo == s.nTodo && r.nIdle == s.nIdle && r.nTotal == s.nTotal && r.last == s.last
      && |r.threads| == |s.threads| && r.threads == s.threads[i := r.threads[i]]
      && r.threads[i].Working? && r.threads[i].batch == s.threads[i].batch && r.threads[i].done == s.threads[i].done + 1
      && r.added == s.added && r.finished == s.finished
  {
  }

  lemma RunningKeepsInv(s: State, i: nat, outcome: Check -> bool)
    requires Inv(s, outcome) && CanRun(s, i)
    ensures Inv(RunOne(s, i, outcome), outcome)
  {
    hide RunOne, Places, Results, Shape;
    RunningFrame(s, i, outcome);
    ShapeChanged(s.threads, i, RunOne(s, i, outcome).threads[i]);
    SameBatch(s.threads, i, RunOne(s, i, outcome).threads[i]);
    RunningPlaces(s, i, outcome);
    RunningResults(s, i, outcome);
  }

  lemma ShapeChanged(threads: seq<Thread>, i: nat, t: Thread)
    requires Shape(threads) && i < |threads| && (i > 0 ==> !t.Outside?)
    requires t.Working? ==> t.batch != [] && t.done <= |t.batch|
    ensures Shape(threads[i := t])
  {
  }

  /** Progress within a batch is in none of the counts. */
  lemma SameBatch(threads: seq<Thread>, i: nat, t: Thread)
    requires i < |threads| && threads[i].Working? && t.Working? && t.batch == threads[i].batch
    ensures Count(threads[i := t], IdleWeight) == Count(threads, IdleWeight)
    ensures Count(threads[i := t], LoopWeight) == Count(threads, LoopWeight)
    ensures Count(threads[i := t], BatchWeight) == Count(threads, BatchWeight)
  {
    CountsChanged(threads, i, t);
  }

  lemma RunningPlaces(s: State, i: nat, outcome: Check -> bool)
    requires Places(s) && CanRun(s, i)
    ensures Places(RunOne(s, i, outcome))
  {
    hide Held, RunOne;
    var r := RunOne(s, i, outcome);
    RunningFrame(s, i, outcome);
    forall c: Check
      ensures r.added[c] == multiset(r.queue)[c] + Held(r.threads, Batch, c) + r.finished[c]
      ensures r.ran[c] + r.skipped[c] == r.finished[c] + Held(r.threads, Done, c)
    {
      assert s.added[c] == multiset(s.queue)[c] + Held(s.threads, Batch, c) + s.finished[c];
      RunningTotals(s, i, outcome, c);
      RunningHeld(s.threads, i, r.threads[i], c);
      OneMore(s.threads[i].batch, s.threads[i].done, c);
    }
  }

  lemma OneMore(batch: seq<Check>, done: nat, c: Check)
    requires done < |batch|
    ensures multiset(batch[..done + 1])[c] == multiset(batch[..done])[c] + multiset{batch[done]}[c]
  {
    assert batch[..done + 1] == batch[..done] + [batch[done]];
  }

  lemma RunningTotals(s: State, i: nat, outcome: Check -> bool, c: Check)
    requires CanRun(s, i)
    ensures var r := RunOne(s, i, outcome);
      r.ran[c] + r.skipped[c] == s.ran[c] + s.skipped[c] + multiset{s.threads[i].batch[s.threads[i].done]}[c]
  {
  }

  lemma RunningHeld(threads: seq<Thread>, i: nat, t: Thread, c: Check)
    requires i < |threads| && threads[i].Working? && t.Working?
    requires t.batch == threads[i].batch && t.done == threads[i].done + 1 <= |t.batch|
    ensures Held(threads[i := t], Batch, c) == Held(threads, Batch, c)
    ensures Held(threads[i := t], Done, c) ==
      Held(threads, Done, c) - multiset(t.batch[..t.done - 1])[c] + multiset(t.batch[..t.done])[c]
  {
    HeldUpdate(threads, i, t, Batch, c);
    HeldUpdate(threads, i, t, Done, c);
  }

  /** Running a check keeps the results and the flags in step. */
  lemma RunningResults(s: State, i: nat, outcome: Check -> bool)
    requires CanRun(s, i) && Results(s, outcome)
    ensures Results(RunOne(s, i, outcome), outcome)
  {
    var t := s.threads[i];
    var c := t.batch[t.done];
    var r := RunOne(s, i, outcome);
    assert r.threads[i].Working?;
    if t.ok {
      assert c in r.ran;
      if !Clean(s) {
        var bad :| bad in s.ran && !outcome(bad);
        assert bad in r.ran;
      }
      if Clean(r) {
        forall j | 0 <= j < |s.threads| && s.threads[j].Working? ensures s.threads[j].ok { assert r.threads[j].ok; }
      }
    } else {
      assert !Clean(s) && !r.threads[i].ok;
    }
  }

  /** The state after a thread that holds no batch moves to where it holds none either. */
  ghost function Moved(s: State, i: nat, t: Thread): State
    requires i < |s.threads|
  {
    s.(threads := s.threads[i := t],
       nIdle := s.nIdle - IdleWeight(s.threads[i]) + IdleWeight(t),
       nTotal := s.nTotal - LoopWeight(s.threads[i]) + LoopWeight(t))
  }

  lemma MovedCore(s: State, i: nat, t: Thread, outcome: Check -> bool)
    requires Core(s, outcome) && i < |s.threads| && !s.threads[i].Working? && !t.Working? && (i > 0 ==> !t.Outside?)
    ensures Core(Moved(s, i, t), outcome)
  {
    hide Shape, Places, Results;
    ShapeChanged(s.threads, i, t);
    CountsChanged(s.threads, i, t);
    MovedPlaces(s, i, t);
    MovedResults(s, i, t, outcome);
  }

  lemma MovedPlaces(s: State, i: nat, t: Thread)
    requires Places(s) && i < |s.threads| && !s.threads[i].Working? && !t.Working?
    ensures Places(Moved(s, i, t))
  {
    HeldChanged(s.threads, i, t);
  }

  lemma MovedResults(s: State, i: nat, t: Thread, outcome: Check -> bool)
    requires Results(s, outcome) && i < |s.threads| && !s.threads[i].Working? && !t.Working?
    ensures Results(Moved(s, i, t), outcome)
  {
    SameResults(s, Moved(s, i, t));
  }

  lemma SpuriousKeepsInv(s: State, i: nat, outcome: Check -> bool)
    requires Inv(s, outcome) && i < |s.threads| && s.threads[i].Waiting?
    ensures Inv(s.(threads := s.threads[i := Woken]), outcome)
  {
    hide Core;
    MovedCore(s, i, Woken, outcome);
    assert s.(threads := s.threads[i := Woken]) == Moved(s, i, Woken);
  }

  /** Threads that are not working do not matter for the results. */
  lemma SameResults(s: State, t: State)
    requires |s.threads| == |t.threads| && s.fAllOk == t.fAllOk
    requires forall i | 0 <= i < |s.threads| ::
      s.threads[i] == t.threads[i] || (!s.threads[i].Working? && !t.threads[i].Working?)
    ensures Clean(s) <==> Clean(t)
  {
  }

  lemma CallWaitKeepsInv(s: State, outcome: Check -> bool)
    requires Inv(s, outcome) && s.threads[0].Outside?
    ensures Inv(s.(threads := s.threads[0 := Fresh]), outcome)
  {
    hide Core;
    MovedCore(s, 0, Fresh, outcome);
    assert s.(threads := s.threads[0 := Fresh]) == Moved(s, 0, Fresh);
  }

  lemma AddingKeepsInv(s: State, checks: seq<Check>, woken: set<nat>, outcome: Check -> bool)
    requires Inv(s, outcome) && s.threads[0].Outside? && Notified(s, checks, woken)
    ensures Inv(Add(s, checks, woken), outcome)
  {
    hide Results, Places, Counters;
    AddedPlaces(s, checks, woken);
    AddedCounters(s, checks, woken);
    AddedResults(s, checks, woken, outcome);
  }

  lemma AddedCounters(s: State, checks: seq<Check>, woken: set<nat>)
    requires Counters(s)
    ensures Counters(Add(s, checks, woken))
  {
    var t := Add(s, checks, woken);
    CountSame(s.threads, t.threads, BatchWeight);
    CountSame(s.threads, t.threads, IdleWeight);
    CountSame(s.threads, t.threads, LoopWeight);
  }

  lemma AddedResults(s: State, checks: seq<Check>, woken: set<nat>, outcome: Check -> bool)
    requires Results(s, outcome)
    ensures Results(Add(s, checks, woken), outcome)
  {
    SameResults(s, Add(s, checks, woken));
  }

  lemma AddedPlaces(s: State, checks: seq<Check>, woken: set<nat>)
    requires Places(s)
    ensures Places(Add(s, checks, woken))
  {
    var t := Add(s, checks, woken);
    forall c: Check
      ensures Held(s.threads, Batch, c) == Held(t.threads, Batch, c)
      ensures Held(s.threads, Done, c) == Held(t.threads, Done, c)
    {
      HeldSame(s.threads, t.threads, Batch, c);
      HeldSame(s.threads, t.threads, Done, c);
    }
  }

  /** A finished batch handed over: the sums do not change, only where the checks are. */
  lemma BatchFinished(s: State, i: nat, outcome: Check -> bool)
    requires Core(s, outcome) && CanEnter(s, i) && s.threads[i].Working?
    ensures Core(HandOver(s, i), outcome)
  {
    hide HandOver, Places, Results, Shape;
    HandOverFrame(s, i);
    var r := HandOver(s, i);
    ShapeChanged(s.threads, i, AtHead);
    CountsChanged(s.threads, i, AtHead);
    FinishedPlaces(s, i, r);
    FinishedResults(s, i, r, outcome);
  }

  lemma HandOverFrame(s: State, i: nat)
    requires i < |s.threads| && s.threads[i].Working?
    ensures var r := HandOver(s, i);
      && r.queue == s.queue && r.nIdle == s.nIdle && r.nTotal == s.nTotal && r.last == s.last
      && r.added == s.added && r.ran == s.ran && r.skipped == s.skipped
      && r.nTodo == s.nTodo - |s.threads[i].batch| && r.fAllOk == (s.fAllOk && s.threads[i].ok)
      && r.finished == s.finished + multiset(s.threads[i].batch) && r.threads == s.threads[i := AtHead]
  {
  }

  lemma FinishedPlaces(s: State, i: nat, r: State)
    requires Places(s) && CanEnter(s, i) && s.threads[i].Working?
    requires r.added == s.added && r.queue == s.queue && r.ran == s.ran && r.skipped == s.skipped
    requires r.finished == s.finished + multiset(s.threads[i].batch) && r.threads == s.threads[i := AtHead]
    ensures Places(r)
  {
    var t := s.threads[i];
    assert t.batch[..t.done] == t.batch;
    forall c: Check
      ensures r.added[c] == multiset(r.queue)[c] + Held(r.threads, Batch, c) + r.finished[c]
      ensures r.ran[c] + r.skipped[c] == r.finished[c] + Held(r.threads, Done, c)
    {
      HeldUpdate(s.threads, i, AtHead, Batch, c);
      HeldUpdate(s.threads, i, AtHead, Done, c);
    }
  }

  lemma FinishedResults(s: State, i: nat, r: State, outcome: Check -> bool)
    requires Results(s, outcome) && i < |s.threads| && s.threads[i].Working?
    requires r.ran == s.ran && r.skipped == s.skipped && r.fAllOk == (s.fAllOk && s.threads[i].ok)
    requires r.threads == s.threads[i := AtHead]
    ensures Results(r, outcome)
  {
    if Clean(r) {
      forall j | 0 <= j < |s.threads| && s.threads[j].Working? ensures s.threads[j].ok {
        if j != i { assert r.threads[j].Working?; }
      }
    }
    if Clean(s) {
      forall j | 0 <= j < |r.threads| && r.threads[j].Working? ensures r.threads[j].ok {
        assert s.threads[j].Working?;
      }
    }
  }

  lemma CleanUpKeepsInv(s: State, i: nat, outcome: Check -> bool)
    requires Inv(s, outcome) && CanEnter(s, i)
    ensures Inv(CleanUp(s, i), outcome) && CleanUp(s, i).threads[i] == AtHead
  {
    hide Core;
    match s.threads[i]
    case Fresh =>
      MovedCore(s, i, AtHead, outcome);
      assert CleanUp(s, i) == Moved(s, i, AtHead);
    case Woken =>
      MovedCore(s, i, AtHead, outcome);
      assert CleanUp(s, i) == Moved(s, i, AtHead);
    case Working(batch, _, ok) =>
      BatchFinished(s, i, outcome);
      var t := HandOver(s, i);
      TodoNatural(t, outcome);
      if t.nTodo == 0 && i != 0 && t.threads[0].Waiting? {
        MovedCore(t, 0, Woken, outcome);
        assert CleanUp(s, i) == Moved(t, 0, Woken);
      }
  }

  lemma TodoNatural(s: State, outcome: Check -> bool)
    requires Core(s, outcome)
    ensures s.nTodo >= |s.queue|
  {
  }

  // ----- The rest of the critical section -----

  /** With nothing to do, no thread holds a batch. */
  lemma Idle(s: State, outcome: Check -> bool)
    requires Core(s, outcome) && s.nTodo == 0
    ensures s.queue == [] && forall i | 0 <= i < |s.threads| :: !s.threads[i].Working?
  {
    forall i | 0 <= i < |s.threads| ensures !s.threads[i].Working? {
      CountAt(s.threads, i, BatchWeight);
    }
  }

  lemma {:induction false} CountAt(threads: seq<Thread>, i: nat, weight: Thread -> nat)
    requires i < |threads|
    ensures weight(threads[i]) <= Count(threads, weight)
    decreases |threads|
  {
    if i > 0 { CountAt(threads[1..], i - 1, weight); }
  }

  /** When the master returns, its report is faithful. */
  lemma ReportFaithful(s: State, outcome: Check -> bool)
    requires Core(s, outcome) && s.nTodo == 0
    ensures Faithful(Report(s.fAllOk, s.added, s.ran), outcome)
  {
    Idle(s, outcome);
    forall c: Check ensures s.added[c] == s.finished[c] && s.ran[c] + s.skipped[c] == s.finished[c] {
      NothingHeld(s.threads, Batch, c);
      NothingHeld(s.threads, Done, c);
    }
    assert Clean(s) <==> s.fAllOk;
    if s.fAllOk {
      assert s.ran == s.added;
    }
  }

  lemma ReturnKeepsInv(s: State, outcome: Check -> bool)
    requires Core(s, outcome) && |s.threads| > 0 && s.threads[0].AtHead? && s.nTodo == 0
    ensures Inv(State([], 0, s.nIdle, s.nTotal - 1, true, s.threads[0 := Outside],
                      multiset{}, multiset{}, multiset{}, multiset{}, Some(Report(s.fAllOk, s.added, s.ran))), outcome)
  {
    ReportFaithful(s, outcome);
    Idle(s, outcome);
    var threads := s.threads[0 := Outside];
    ShapeChanged(s.threads, 0, Outside);
    CountsChanged(s.threads, 0, Outside);
    NothingCounted(threads, BatchWeight);
    forall c: Check ensures Held(threads, Batch, c) == 0 && Held(threads, Done, c) == 0 {
      NothingHeld(threads, Batch, c);
      NothingHeld(threads, Done, c);
    }
    hide Shape;
  }

  /** A batch taken from the end of the queue. */
  lemma TakeCore(s: State, i: nat, keep: nat, outcome: Check -> bool)
    requires Core(s, outcome) && i < |s.threads| && s.threads[i].AtHead? && keep < |s.queue|
    ensures var t := Working(s.queue[keep..], 0, s.fAllOk);
      Core(s.(queue := s.queue[..keep], threads := s.threads[i := t]), outcome)
  {
    var t := Working(s.queue[keep..], 0, s.fAllOk);
    var r := s.(queue := s.queue[..keep], threads := s.threads[i := t]);
    hide Shape, Places, Results;
    ShapeChanged(s.threads, i, t);
    CountsChanged(s.threads, i, t);
    TakePlaces(s, i, keep, r);
    TakeResults(s, i, r, outcome);
  }

  lemma TakePlaces(s: State, i: nat, keep: nat, r: State)
    requires Places(s) && i < |s.threads| && s.threads[i].AtHead? && keep < |s.queue|
    requires r == s.(queue := s.queue[..keep], threads := s.threads[i := Working(s.queue[keep..], 0, s.fAllOk)])
    ensures Places(r)
  {
    var t := r.threads[i];
    assert s.queue == s.queue[..keep] + s.queue[keep..];
    forall c: Check
      ensures r.added[c] == multiset(r.queue)[c] + Held(r.threads, Batch, c) + r.finished[c]
      ensures r.ran[c] + r.skipped[c] == r.finished[c] + Held(r.threads, Done, c)
    {
      HeldUpdate(s.threads, i, t, Batch, c);
      HeldUpdate(s.threads, i, t, Done, c);
      assert multiset(s.queue)[c] == multiset(s.queue[..keep])[c] + multiset(s.queue[keep..])[c];
      assert s.added[c] == multiset(s.queue)[c] + Held(s.threads, Batch, c) + s.finished[c];
    }
  }

  lemma TakeResults(s: State, i: nat, r: State, outcome: Check -> bool)
    requires Results(s, outcome) && i < |s.threads| && !s.threads[i].Working?
    requires r.ran == s.ran && r.skipped == s.skipped && r.fAllOk == s.fAllOk && |r.threads| == |s.threads|
    requires r.threads[i].Working? && r.threads[i].ok == s.fAllOk && r.threads == s.threads[i := r.threads[i]]
    ensures Results(r, outcome)
  {
    if Clean(r) {
      forall j | 0 <= j < |s.threads| && s.threads[j].Working? ensures s.threads[j].ok { assert r.threads[j].Working?; }
    }
    if Clean(s) {
      forall j | 0 <= j < |r.threads| && r.threads[j].Working? ensures r.threads[j].ok {
        if j != i { assert s.threads[j].Working?; }
      }
    }
  }

  lemma ProceedKeepsInv(s: State, i: nat, batchSize: nat, outcome: Check -> bool)
    requires Inv(s, outcome) && i < |s.threads| && s.threads[i].AtHead?
    ensures Inv(Proceed(s, i, batchSize), outcome)
  {
    hide Core;
    TodoNatural(s, outcome);
    if s.queue == [] {
      if i == 0 && s.nTodo == 0 {
        ReturnKeepsInv(s, outcome);
      } else {
        MovedCore(s, i, Waiting, outcome);
        assert Proceed(s, i, batchSize) == Moved(s, i, Waiting);
      }
    } else {
      TakeCore(s, i, |s.queue| - BatchSize(|s.queue|, s.nTotal, s.nIdle, batchSize), outcome);
    }
  }

  lemma NextKeepsInv(s: State, step: Step, batchSize: nat, outcome: Check -> bool)
    requires Inv(s, outcome) && Enabled(s, step)
    ensures Inv(Next(s, step, batchSize, outcome), outcome)
  {
    match step
    case Entering(i) =>
      CleanUpKeepsInv(s, i, outcome);
      ProceedKeepsInv(CleanUp(s, i), i, batchSize, outcome);
    case Running(i) => RunningKeepsInv(s, i, outcome);
    case Adding(checks, woken) => AddingKeepsInv(s, checks, woken, outcome);
    case CallWait => CallWaitKeepsInv(s, outcome);
    case Spurious(i) => SpuriousKeepsInv(s, i, outcome);
  }

  // ----- Runs -----

  /** Between steps no thread is inside a critical section. */
  ghost predicate Settled(s: State) {
    SettledBut(s.threads, |s.threads|)
  }

  ghost predicate SettledBut(threads: seq<Thread>, i: nat) {
    forall j | 0 <= j < |threads| && j != i :: threads[j] != AtHead
  }

  lemma SettledSet(threads: seq<Thread>, i: nat, t: Thread, n: nat)
    requires i < |threads| <= n && SettledBut(threads, i)
    ensures SettledBut(threads[i := t], i)
    ensures t != AtHead ==> SettledBut(threads[i := t], n)
  {
  }

  lemma NextSettled(s: State, step: Step, batchSize: nat, outcome: Check -> bool)
    requires Enabled(s, step) && Settled(s)
    ensures Settled(Next(s, step, batchSize, outcome))
  {
    var n := |s.threads|;
    match step
    case Entering(i) =>
      hide CleanUp, Proceed;
      CleanUpSettled(s, i);
      ProceedSettled(CleanUp(s, i), i, batchSize);
    case Running(i) => SettledSet(s.threads, i, RunOne(s, i, outcome).threads[i], n);
    case Adding(checks, woken) =>
    case CallWait => SettledSet(s.threads, 0, Fresh, n);
    case Spurious(i) => SettledSet(s.threads, i, Woken, n);
  }

  lemma CleanUpSettled(s: State, i: nat)
    requires CanEnter(s, i) && Settled(s)
    ensures |CleanUp(s, i).threads| == |s.threads| && SettledBut(CleanUp(s, i).threads, i)
  {
    var u := s.threads[i := AtHead];
    SettledSet(s.threads, i, AtHead, |u|);
    assert CleanUp(s, i).threads == u || CleanUp(s, i).threads == u[0 := Woken];
  }

  lemma ProceedSettled(s: State, i: nat, batchSize: nat)
    requires i < |s.threads| && SettledBut(s.threads, i)
    ensures Settled(Proceed(s, i, batchSize))
  {
    var r := Proceed(s, i, batchSize);
    SettledSet(s.threads, i, r.threads[i], |s.threads|);
    assert r.threads == s.threads[i := r.threads[i]];
  }

  /** The state after an interleaving of steps; None when one of them was not enabled. */
  ghost function Run(workers: nat, steps: seq<Step>, batchSize: nat, outcome: Check -> bool): (s: Option<State>)
    ensures s.Some? ==> Inv(s.value, outcome) && Settled(s.value)
    decreases |steps|
  {
    if steps == [] then InitialInv(workers, outcome); Some(Initial(workers)) else
    var step := steps[|steps| - 1];
    match Run(workers, steps[..|steps| - 1], batchSize, outcome)
    case None => None
    case Some(before) =>
      if !Enabled(before, step) then None else
      NextKeepsInv(before, step, batchSize, outcome);
      NextSettled(before, step, batchSize, outcome);
      Some(Next(before, step, batchSize, outcome))
  }

  /** A worker holds checks that have not been handed over. */
  ghost predicate WorkInFlight(s: State) {
    exists i :: 0 < i < |s.threads| && BatchWeight(s.threads[i]) > 0
  }

  /**
    nTodo is the number of checks queued or held by a thread, every check added is in exactly
    one place, a blocked master has nothing queued and a worker with checks in hand, and the
    last report was faithful.
  */
  ghost predicate Safe(s: State, outcome: Check -> bool) {
    && s.nTodo == |s.queue| + Count(s.threads, BatchWeight)
    && Places(s)
    && (|s.threads| > 0 && s.threads[0].Waiting? ==> s.queue == [] && WorkInFlight(s))
    && (s.last.Some? ==> Faithful(s.last.value, outcome))
  }

  lemma InvIsSafe(s: State, outcome: Check -> bool)
    requires Inv(s, outcome)
    ensures Safe(s, outcome)
  {
    hide Places, Results, Shape;
    if s.threads[0].Waiting? {
      var i := SomeThread(s.threads, BatchWeight);
      assert i != 0;
    }
  }

  /** Safety, over all interleavings of a master and any number of workers. */
  lemma RunsAreSafe(workers: nat, steps: seq<Step>, batchSize: nat, outcome: Check -> bool)
    requires Run(workers, steps, batchSize, outcome).Some?
    ensures Safe(Run(workers, steps, batchSize, outcome).value, outcome)
  {
    hide Inv, Safe;
    InvIsSafe(Run(workers, steps, batchSize, outcome).value, outcome);
  }

  // ----- Wait returns -----

  ghost predicate InWait(s: State) {
    |s.threads| > 0 && !s.threads[0].Outside?
  }

  /**
    When Wait returns nothing is left over: the queue is empty, no thread holds a check, and
    the report is about every check added since the one before.
  */
  lemma NothingLeftOver(s: State, step: Step, batchSize: nat, outcome: Check -> bool)
    requires Inv(s, outcome) && InWait(s) && Enabled(s, step) && !InWait(Next(s, step, batchSize, outcome))
    ensures var t := Next(s, step, batchSize, outcome);
      && t.queue == [] && t.nTodo == 0 && t.added == t.finished == t.ran == t.skipped == multiset{}
      && (forall i | 0 <= i < |t.threads| :: !t.threads[i].Working?)
      && t.last.Some? && t.last.value.added == s.added && t.last.value.ran == s.ran
      && Faithful(t.last.value, outcome)
  {
    hide Core, Places, Faithful, CleanUp;
    ReturnStep(s, step, batchSize, outcome);
    var u := CleanUp(s, 0);
    CleanUpKeepsInv(s, 0, outcome);
    Idle(u, outcome);
    ReportFaithful(u, outcome);
  }

  /** The one way out of Wait. */
  lemma ReturnStep(s: State, step: Step, batchSize: nat, outcome: Check -> bool)
    requires InWait(s) && Enabled(s, step) && !InWait(Next(s, step, batchSize, outcome))
    ensures step == Entering(0) && var u := CleanUp(s, 0);
      |u.threads| == |s.threads| && u.queue == [] && u.nTodo == 0 && u.added == s.added && u.ran == s.ran
  {
    hide CleanUp, Proceed;
    match step
    case Entering(i) =>
      CleanUpFrame(s, i);
      ProceedOut(CleanUp(s, i), i, batchSize);
    case _ =>
  }

  lemma CleanUpFrame(s: State, i: nat)
    requires CanEnter(s, i)
    ensures var u := CleanUp(s, i);
      && |u.threads| == |s.threads| && u.added == s.added && u.ran == s.ran
      && (u.threads[0].Outside? ==> s.threads[0].Outside?)
  {
  }

  lemma ProceedOut(u: State, i: nat, batchSize: nat)
    requires i < |u.threads| && !u.threads[0].Outside?
    ensures |Proceed(u, i, batchSize).threads| == |u.threads|
    ensures Proceed(u, i, batchSize).threads[0].Outside? ==> i == 0 && u.queue == [] && u.nTodo == 0
  {
  }

  /** While the master is in Wait, some thread can take a step that is not a spurious wake-up. */
  lemma NeverStuck(s: State, outcome: Check -> bool) returns (step: Step)
    requires Inv(s, outcome) && Settled(s) && InWait(s)
    ensures Enabled(s, step) && (step.Entering? || step.Running?)
  {
    var i: nat := 0;
    if s.threads[0].Waiting? {
      i := SomeThread(s.threads, BatchWeight);
    }
    step := if CanRun(s, i) then Running(i) else Entering(i);
  }

  ghost function Effort(t: Thread): nat {
    match t
    case Working(batch, done, _) => 2 + if done <= |batch| then |batch| - done else 0
    case Fresh => 1
    case Woken => 1
    case _ => 0
  }

  /** An upper bound on the steps left. */
  ghost function Potential(s: State): nat {
    3 * |s.queue| + Count(s.threads, Effort)
  }

  /** Every step of a thread uses up potential; only a spurious wake-up adds to it. */
  lemma StepUsesPotential(s: State, step: Step, batchSize: nat, outcome: Check -> bool)
    requires Inv(s, outcome) && Enabled(s, step) && (step.Entering? || step.Running? || step.Spurious?)
    ensures var t := Next(s, step, batchSize, outcome);
      if step.Spurious? then Potential(t) == Potential(s) + 1 else Potential(t) < Potential(s)
  {
    hide Places, Results, Counters, Enter;
    match step
    case Entering(i) => EnteringUsesPotential(s, i, batchSize);
    case Running(i) => RunningUsesPotential(s, i, outcome);
    case Spurious(i) => CountUpdate(s.threads, i, Woken, Effort);
  }

  lemma RunningUsesPotential(s: State, i: nat, outcome: Check -> bool)
    requires CanRun(s, i)
    ensures Potential(RunOne(s, i, outcome)) < Potential(s)
  {
    hide RunOne;
    RunningFrame(s, i, outcome);
    CountUpdate(s.threads, i, RunOne(s, i, outcome).threads[i], Effort);
  }

  lemma EnteringUsesPotential(s: State, i: nat, batchSize: nat)
    requires CanEnter(s, i) && Shape(s.threads)
    ensures Potential(Enter(s, i, batchSize)) < Potential(s)
  {
    hide CleanUp, Proceed, Potential;
    CleaningUsesPotential(s, i);
    ProceedingKeepsPotential(CleanUp(s, i), i, batchSize);
  }

  lemma CleaningUsesPotential(s: State, i: nat)
    requires CanEnter(s, i) && Shape(s.threads)
    ensures var t := CleanUp(s, i); i < |t.threads| && t.threads[i] == AtHead && Potential(t) < Potential(s)
  {
    hide Count;
    var u := s.threads[i := AtHead];
    CountUpdate(s.threads, i, AtHead, Effort);
    if CleanUp(s, i).threads != u { CountUpdate(u, 0, Woken, Effort); }
  }

  /** A batch takes at least one check off the queue, and a check there weighs three. */
  lemma ProceedingKeepsPotential(t: State, i: nat, batchSize: nat)
    requires i < |t.threads| && t.threads[i] == AtHead
    ensures Potential(Proceed(t, i, batchSize)) <= Potential(t)
  {
    hide Count, BatchSize;
    CountUpdate(t.threads, i, Proceed(t, i, batchSize).threads[i], Effort);
    if t.queue != [] { SizeOfBatch(|t.queue|, t.nTotal, t.nIdle, batchSize); }
  }

  lemma SizeOfBatch(queued: nat, total: int, idle: int, batchSize: nat)
    requires queued >= 1
    ensures 1 <= BatchSize(queued, total, idle, batchSize) <= queued
  {
  }

  /** A run of steps by the threads, in which the master stays in Wait. */
  ghost predicate Waits(s: State, steps: seq<Step>, batchSize: nat, outcome: Check -> bool)
    decreases |steps|
  {
    InWait(s) && (steps != [] ==>
      && Enabled(s, steps[0]) && (steps[0].Entering? || steps[0].Running? || steps[0].Spurious?)
      && Waits(Next(s, steps[0], batchSize, outcome), steps[1..], batchSize, outcome))
  }

  function SpuriousCount(steps: seq<Step>): nat {
    if steps == [] then 0 else (if steps[0].Spurious? then 1 else 0) + SpuriousCount(steps[1..])
  }

  /**
    Wait returns: whatever the schedule, the steps taken while the master waits are at most
    the potential at the start plus two for every spurious wake-up.
  */
  lemma {:induction false} WaitIsBounded(s: State, steps: seq<Step>, batchSize: nat, outcome: Check -> bool)
    requires Inv(s, outcome) && Waits(s, steps, batchSize, outcome)
    ensures |steps| <= Potential(s) + 2 * SpuriousCount(steps)
    decreases |steps|
  {
    if steps != [] {
      var t := Next(s, steps[0], batchSize, outcome);
      StepUsesPotential(s, steps[0], batchSize, outcome);
      NextKeepsInv(s, steps[0], batchSize, outcome);
      WaitIsBounded(t, steps[1..], batchSize, outcome);
    }
  }
}
