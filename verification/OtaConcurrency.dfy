/**
 * The dispatcher's threads: requests arrive on one, the main loop starts workers, and every update body
 * runs under one lock that the startup check also takes. Each step below is one atomic action of one
 * thread; a run is any sequence of them.
 */
module OtaConcurrency {

  /** Where a worker is within the `start` method of an OTA thread. */
  datatype Pc =
    | PreCheck
    | TryLock
    | Body                 // between acquiring and the end of the try block, with the lock
    | Unwinding(raises: bool) // in the finally clause, about to release
    | Lost                 // returned OTA_FAILURE_IN_PROGRESS
    | Returned             // returned the result of the body
    | Raised               // left by an exception

  /** A worker thread: waiting for a request, handling it, or done with it. */
  datatype Worker<Request> = Waiting | Handling(request: Request, pc: Pc, ran: bool) | Finished(request: Request)

  datatype Lock = Free | HeldBy(worker: nat) | HeldByStartup

  datatype Startup = NotStarted | Checking | Started

  /** The threads and the one-slot queue, with a record of what arrived and what was taken. */
  datatype System<Request> = System(
    startup: Startup,
    lock: Lock,
    queue: seq<Request>,
    workers: seq<Worker<Request>>,
    arrivals: seq<(Request, bool)>,  // in order, and whether the request was queued
    taken: seq<Request>,             // in order
    takers: seq<nat>)                // the worker that took each

  datatype Step<Request> =
    | Arrive(request: Request)
    | BeginStartup | EndStartup
    | Spawn
    | Take(worker: nat)
    | Move(worker: nat, to: Pc)
    | NextAttempt(worker: nat)
    | Finish(worker: nat)

  predicate Init<Request>(s: System<Request>) {
    s == System(NotStarted, Free, [], [], [], [], [])
  }

  /** The moves of one attempt; the lock is tried without waiting and released in the finally clause. */
  predicate CanMove(pc: Pc, lock: Lock, to: Pc) {
    match pc
    case PreCheck => to == TryLock || to == Raised
    case TryLock => to == if lock == Free then Body else Lost
    case Body => to.Unwinding?
    case Unwinding(raises) => to == if raises then Raised else Returned
    case Lost => false
    case Returned => false
    case Raised => false
  }

  predicate Enabled<Request>(s: System<Request>, step: Step<Request>) {
    match step
    case Arrive(_) => true
    case BeginStartup => s.startup == NotStarted && s.lock == Free
    case EndStartup => s.startup == Checking
    case Spawn => s.startup == Started && s.queue != []
    case Take(i) => i < |s.workers| && s.workers[i].Waiting? && s.queue != []
    case Move(i, to) => i < |s.workers| && s.workers[i].Handling? && CanMove(s.workers[i].pc, s.lock, to)
    case NextAttempt(i) => i < |s.workers| && s.workers[i].Handling? && AtRest(s.workers[i].pc)
    case Finish(i) => i < |s.workers| && s.workers[i].Handling? && AtRest(s.workers[i].pc)
  }

  predicate AtRest(pc: Pc) {
    pc == Lost || pc == Returned || pc == Raised
  }

  function Apply<Request>(s: System<Request>, step: Step<Request>): System<Request>
    requires Enabled(s, step)
  {
    match step
    case Arrive(r) =>
      if |s.queue| < 1 then s.(queue := s.queue + [r], arrivals := s.arrivals + [(r, true)])
      else s.(arrivals := s.arrivals + [(r, false)])
    case BeginStartup => s.(startup := Checking, lock := HeldByStartup)
    case EndStartup => s.(startup := Started, lock := Free)
    case Spawn => s.(workers := s.workers + [Waiting])
    case Take(i) =>
      s.(workers := s.workers[i := Handling(s.queue[0], PreCheck, false)], queue := s.queue[1..],
         taken := s.taken + [s.queue[0]], takers := s.takers + [i])
    case Move(i, to) =>
      var w := s.workers[i];
      s.(workers := s.workers[i := w.(pc := to, ran := w.ran || to == Body)],
         lock := if to == Body then HeldBy(i) else if w.pc.Unwinding? then Free else s.lock)
    case NextAttempt(i) => s.(workers := s.workers[i := s.workers[i].(pc := PreCheck, ran := false)])
    case Finish(i) => s.(workers := s.workers[i := Finished(s.workers[i].request)])
  }

  /** The worker is inside the part that needs the lock. */
  predicate Locked<Request>(w: Worker<Request>) {
    w.Handling? && (w.pc == Body || w.pc.Unwinding?)
  }

  /** The lock is held by exactly the thread that is inside, and by no one else. */
  ghost predicate LockInv<Request>(s: System<Request>) {
    && (s.lock == HeldByStartup <==> s.startup == Checking)
    && (s.startup != Started ==> s.workers == [])
    && (forall i | 0 <= i < |s.workers| :: Locked(s.workers[i]) <==> s.lock == HeldBy(i))
    && (s.lock.HeldBy? ==> s.lock.worker < |s.workers|)
    && (forall w <- s.workers | w.Handling? && (w.pc == Lost || w.pc == PreCheck || w.pc == TryLock) :: !w.ran)
  }

  function Queued<Request>(arrivals: seq<(Request, bool)>): seq<Request> {
    if arrivals == [] then []
    else
      var n := |arrivals| - 1;
      Queued(arrivals[..n]) + (if arrivals[n].1 then [arrivals[n].0] else [])
  }

  function RequestOf<Request>(w: Worker<Request>): (r: Request)
    requires !w.Waiting?
  {
    w.request
  }

  /** Requests are taken in the order they were queued, each by a worker of its own. */
  ghost predicate QueueInv<Request>(s: System<Request>) {
    && |s.queue| <= 1
    && s.taken + s.queue == Queued(s.arrivals)
    && |s.takers| == |s.taken|
    && (forall k | 0 <= k < |s.takers| ::
          s.takers[k] < |s.workers| && !s.workers[s.takers[k]].Waiting? && RequestOf(s.workers[s.takers[k]]) == s.taken[k])
    && (forall j, k | 0 <= j < k < |s.takers| :: s.takers[j] != s.takers[k])
    && (forall i | 0 <= i < |s.workers| && !s.workers[i].Waiting? :: i in s.takers)
  }

  lemma InitInv<Request>(s: System<Request>)
    requires Init(s)
    ensures LockInv(s) && QueueInv(s)
  {
  }

  lemma StepKeepsLock<Request>(s: System<Request>, step: Step<Request>)
    requires LockInv(s) && Enabled(s, step)
    ensures LockInv(Apply(s, step))
  {
    var s' := Apply(s, step);
    assert forall w <- s.workers | w.Handling? && (w.pc == Lost || w.pc == PreCheck || w.pc == TryLock) :: !w.ran;
    match step
    case Take(i) =>
      assert forall j | 0 <= j < |s'.workers| && j != i :: s'.workers[j] == s.workers[j];
    case Move(i, to) =>
      assert s.workers[i] in s.workers;
      assert forall j | 0 <= j < |s'.workers| && j != i :: s'.workers[j] == s.workers[j];
    case NextAttempt(i) =>
      assert forall j | 0 <= j < |s'.workers| && j != i :: s'.workers[j] == s.workers[j];
    case Finish(i) =>
      assert forall j | 0 <= j < |s'.workers| && j != i :: s'.workers[j] == s.workers[j];
    case Arrive(_) =>
    case BeginStartup =>
    case EndStartup =>
    case Spawn =>
      assert forall j | 0 <= j < |s.workers| :: s'.workers[j] == s.workers[j];
  }

  lemma StepKeepsQueue<Request>(s: System<Request>, step: Step<Request>)
    requires QueueInv(s) && Enabled(s, step)
    ensures QueueInv(Apply(s, step))
  {
    var s' := Apply(s, step);
    match step
    case Arrive(r) =>
      assert s'.arrivals[..|s.arrivals|] == s.arrivals;
      if |s.queue| < 1 {
        assert s.taken + (s.queue + [r]) == (s.taken + s.queue) + [r];
      } else {
        assert Queued(s.arrivals) + [] == Queued(s.arrivals);
      }
    case Take(i) =>
      assert i !in s.takers;
      assert (s.taken + [s.queue[0]]) + s.queue[1..] == s.taken + s.queue;
      assert forall j | 0 <= j < |s'.workers| && j != i :: s'.workers[j] == s.workers[j];
      assert s'.takers[|s.takers|] == i;
    case Move(i, to) =>
    case NextAttempt(i) =>
    case Finish(i) =>
    case BeginStartup =>
    case EndStartup =>
    case Spawn =>
  }

  /** A run: states, each reached from the one before by an enabled step. */
  ghost predicate IsRun<Request>(run: seq<System<Request>>, steps: seq<Step<Request>>) {
    && |run| == |steps| + 1
    && Init(run[0])
    && forall i | 0 <= i < |steps| :: Enabled(run[i], steps[i]) && run[i + 1] == Apply(run[i], steps[i])
  }

  lemma {:induction false} RunInv<Request>(run: seq<System<Request>>, steps: seq<Step<Request>>, k: nat)
    requires IsRun(run, steps) && k < |run|
    ensures LockInv(run[k]) && QueueInv(run[k])
  {
    if k == 0 {
      InitInv(run[0]);
    } else {
      RunInv(run, steps, k - 1);
      StepKeepsLock(run[k - 1], steps[k - 1]);
      StepKeepsQueue(run[k - 1], steps[k - 1]);
    }
  }

  /**
   * In every reachable state at most one update body runs, none while the startup check runs, and the
   * lock is free whenever no thread is inside, however the last one left.
   */
  lemma MutualExclusion<Request>(run: seq<System<Request>>, steps: seq<Step<Request>>, k: nat)
    requires IsRun(run, steps) && k < |run|
    ensures
      var s := run[k];
      && (forall i, j | 0 <= i < j < |s.workers| :: !(Locked(s.workers[i]) && Locked(s.workers[j])))
      && (s.startup == Checking ==> forall w <- s.workers :: !Locked(w))
      && ((s.startup != Checking && forall w <- s.workers :: !Locked(w)) ==> s.lock == Free)
      && (forall w <- s.workers | w.Handling? && w.pc == Lost :: !w.ran)
  {
    RunInv(run, steps, k);
    var s := run[k];
    if s.lock.HeldBy? {
      assert s.workers[s.lock.worker] in s.workers;
    }
  }

  /**
   * In every reachable state, the queued requests are those taken, in the order they arrived, and at
   * most one that waits; no worker took two, and a worker that handles a request took it.
   */
  lemma RequestsConserved<Request>(run: seq<System<Request>>, steps: seq<Step<Request>>, k: nat)
    requires IsRun(run, steps) && k < |run|
    ensures
      var s := run[k];
      && |s.queue| <= 1 && Queued(s.arrivals) == s.taken + s.queue
      && |s.takers| == |s.taken|
      && (forall i, j | 0 <= i < j < |s.takers| :: s.takers[i] != s.takers[j])
      && (forall i | 0 <= i < |s.workers| && !s.workers[i].Waiting? ::
            exists j | 0 <= j < |s.takers| :: s.takers[j] == i && s.taken[j] == RequestOf(s.workers[i]))
  {
    RunInv(run, steps, k);
    var s := run[k];
    forall i | 0 <= i < |s.workers| && !s.workers[i].Waiting?
      ensures exists j | 0 <= j < |s.takers| :: s.takers[j] == i && s.taken[j] == RequestOf(s.workers[i])
    {
      var j :| 0 <= j < |s.takers| && s.takers[j] == i;
    }
  }

  /** A request is turned away exactly when another one is waiting. */
  lemma BusyOnlyWhenFull<Request>(run: seq<System<Request>>, steps: seq<Step<Request>>, k: nat)
    requires IsRun(run, steps) && k < |steps| && steps[k].Arrive?
    ensures |run[k + 1].arrivals| == |run[k].arrivals| + 1
    ensures run[k + 1].arrivals[|run[k].arrivals|] == (steps[k].request, run[k].queue == [])
  {
    RunInv(run, steps, k);
  }
}
