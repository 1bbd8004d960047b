/** The bounded worker pool (backend/internal/workers/pool.go) as a timed state machine.

    `jobs` is a Go channel of capacity `capacity`; each worker loops over receive, count up, call,
    deliver or drop, count down. Jobs are numbered in the order they are accepted. Assumed, as
    `main` arranges: at least one worker, a pool context that stays live, and no `Submit` that
    overlaps `Shutdown`.

    Time only passes by `Tick`, which is allowed while no idle worker could take a queued job and
    no worker is past its service bound `limit` (see MLClient.ServiceBound). */
module WorkerPool {

  datatype Worker =
    | Idle
    | Taken(job: nat, since: nat)     // received, not yet counted in busyWorkers
    | Calling(job: nat, since: nat)   // in the ML call
    | Answered(job: nat, since: nat)  // the call returned
    | Resolved(job: nat, since: nat)  // result sent or dropped, still counted
    | Exited

  /** What has happened to an accepted job. */
  datatype Job = Job(contextEnded: bool, taken: nat, sent: nat, dropped: nat)

  datatype State = State(
    capacity: nat, limit: nat,
    now: nat, closed: bool, queue: seq<nat>, busy: int,
    jobs: seq<Job>, workers: seq<Worker>)

  datatype Event =
    | Enqueue(ended: bool)         // Submit, buffered
    | Handoff(w: nat, ended: bool) // Submit straight to a waiting receiver
    | Receive(w: nat) | BeginCall(w: nat) | EndCall(w: nat)
    | Send(w: nat) | Drop(w: nat) | EndProcess(w: nat)
    | Close                        // Shutdown: set the flag, close the channel
    | Exit(w: nat)
    | ContextEnds(job: nat)
    | Tick

  predicate Active(w: Worker)
  {
    !w.Idle? && !w.Exited?
  }

  predicate CountedBusy(w: Worker)
  {
    w.Calling? || w.Answered? || w.Resolved?
  }

  /** The worker has a job whose fate is still open. */
  predicate HoldsJob(w: Worker)
  {
    w.Taken? || w.Calling? || w.Answered?
  }

  predicate AnyIdle(s: State)
  {
    exists w | 0 <= w < |s.workers| :: s.workers[w].Idle?
  }

  predicate CanTick(s: State)
  {
    && (s.queue != [] ==> !AnyIdle(s))
    && forall w | 0 <= w < |s.workers| && Active(s.workers[w]) :: s.now + 1 <= s.workers[w].since + s.limit
  }

  predicate Enabled(s: State, e: Event)
  {
    match e
    case Enqueue(_) => !s.closed && |s.queue| < s.capacity
    case Handoff(w, _) => !s.closed && s.queue == [] && w < |s.workers| && s.workers[w].Idle?
    case Receive(w) => w < |s.workers| && s.workers[w].Idle? && s.queue != [] && s.queue[0] < |s.jobs|
    case BeginCall(w) => w < |s.workers| && s.workers[w].Taken?
    case EndCall(w) => w < |s.workers| && s.workers[w].Calling?
    case Send(w) =>
      // The result channel holds one result, so the send is ready while none was sent.
      w < |s.workers| && s.workers[w].Answered? && s.workers[w].job < |s.jobs| && s.jobs[s.workers[w].job].sent == 0
    case Drop(w) =>
      w < |s.workers| && s.workers[w].Answered? && s.workers[w].job < |s.jobs| && s.jobs[s.workers[w].job].contextEnded
    case EndProcess(w) => w < |s.workers| && s.workers[w].Resolved?
    case Close => !s.closed
    case Exit(w) => w < |s.workers| && s.workers[w].Idle? && s.closed && s.queue == []
    case ContextEnds(j) => j < |s.jobs|
    case Tick => CanTick(s)
  }

  function Step(s: State, e: Event): State
    requires Enabled(s, e)
  {
    match e
    case Enqueue(ended) => s.(queue := s.queue + [|s.jobs|], jobs := s.jobs + [Job(ended, 0, 0, 0)])
    case Handoff(w, ended) =>
      s.(jobs := s.jobs + [Job(ended, 1, 0, 0)], workers := s.workers[w := Taken(|s.jobs|, s.now)])
    case Receive(w) =>
      var j := s.queue[0];
      s.(queue := s.queue[1..], jobs := s.jobs[j := s.jobs[j].(taken := s.jobs[j].taken + 1)],
         workers := s.workers[w := Taken(j, s.now)])
    case BeginCall(w) =>
      s.(busy := s.busy + 1, workers := s.workers[w := Calling(s.workers[w].job, s.workers[w].since)])
    case EndCall(w) => s.(workers := s.workers[w := Answered(s.workers[w].job, s.workers[w].since)])
    case Send(w) =>
      var j := s.workers[w].job;
      s.(jobs := s.jobs[j := s.jobs[j].(sent := s.jobs[j].sent + 1)],
         workers := s.workers[w := Resolved(j, s.workers[w].since)])
    case Drop(w) =>
      var j := s.workers[w].job;
      s.(jobs := s.jobs[j := s.jobs[j].(dropped := s.jobs[j].dropped + 1)],
         workers := s.workers[w := Resolved(j, s.workers[w].since)])
    case EndProcess(w) => s.(busy := s.busy - 1, workers := s.workers[w := Idle])
    case Close => s.(closed := true)
    case Exit(w) => s.(workers := s.workers[w := Exited])
    case ContextEnds(j) => s.(jobs := s.jobs[j := s.jobs[j].(contextEnded := true)])
    case Tick => s.(now := s.now + 1)
  }

  ghost predicate Next(s: State, e: Event, s': State)
  {
    Enabled(s, e) && s' == Step(s, e)
  }

  ghost predicate IsRun(states: seq<State>, events: seq<Event>)
  {
    && |states| == |events| + 1
    && forall i | 0 <= i < |events| :: StepAt(states, events, i)
  }

  ghost predicate StepAt(states: seq<State>, events: seq<Event>, i: nat)
    requires i < |events| < |states|
  {
    Next(states[i], events[i], states[i + 1])
  }

  /** A pool just started. */
  predicate Init(s: State)
  {
    && s.queue == [] && s.jobs == [] && s.busy == 0 && !s.closed && |s.workers| >= 1
    && forall w | 0 <= w < |s.workers| :: s.workers[w].Idle?
  }

  // ---- counting workers and jobs ----

  function Count(workers: seq<Worker>, p: Worker -> bool): nat
  {
    if workers == [] then 0 else (if p(workers[0]) then 1 else 0) + Count(workers[1..], p)
  }

  lemma {:induction false} CountUpdate(workers: seq<Worker>, p: Worker -> bool, w: nat, x: Worker)
    requires w < |workers|
    ensures Count(workers[w := x], p)
         == Count(workers, p) - (if p(workers[w]) then 1 else 0) + (if p(x) then 1 else 0)
  {
    if w == 0 {
      assert workers[0 := x][1..] == workers[1..];
    } else {
      CountUpdate(workers[1..], p, w - 1, x);
      assert workers[w := x][1..] == workers[1..][w - 1 := x];
    }
  }

  lemma {:induction false} CountBounds(workers: seq<Worker>, p: Worker -> bool)
    ensures Count(workers, p) <= |workers|
    ensures (forall w | 0 <= w < |workers| :: !p(workers[w])) ==> Count(workers, p) == 0
  {
    if workers != [] {
      CountBounds(workers[1..], p);
    }
  }

  function Sent(jobs: seq<Job>): nat
  {
    if jobs == [] then 0 else Sent(jobs[..|jobs| - 1]) + jobs[|jobs| - 1].sent
  }

  function Dropped(jobs: seq<Job>): nat
  {
    if jobs == [] then 0 else Dropped(jobs[..|jobs| - 1]) + jobs[|jobs| - 1].dropped
  }

  lemma {:induction false} JobsUpdate(jobs: seq<Job>, j: nat, x: Job)
    requires j < |jobs|
    ensures Sent(jobs[j := x]) == Sent(jobs) - jobs[j].sent + x.sent
    ensures Dropped(jobs[j := x]) == Dropped(jobs) - jobs[j].dropped + x.dropped
  {
    var n := |jobs| - 1;
    if j == n {
      assert jobs[j := x][..n] == jobs[..n];
    } else {
      JobsUpdate(jobs[..n], j, x);
      assert jobs[j := x][..n] == jobs[..n][j := x];
    }
  }

  lemma JobsAppend(jobs: seq<Job>, x: Job)
    ensures Sent(jobs + [x]) == Sent(jobs) + x.sent
    ensures Dropped(jobs + [x]) == Dropped(jobs) + x.dropped
  {
    assert (jobs + [x])[..|jobs|] == jobs;
  }

  // ---- the invariant ----

  /** Jobs before this number have been taken by a worker. */
  function Started(s: State): int
  {
    |s.jobs| - |s.queue|
  }

  /** The buffer holds exactly the accepted jobs not yet started, in submission order. */
  predicate Fifo(s: State)
  {
    && |s.queue| <= |s.jobs|
    && forall k | 0 <= k < |s.queue| :: s.queue[k] == Started(s) + k
  }

  predicate WorkerOk(s: State, w: Worker)
  {
    && (Active(w) ==> w.job < Started(s) && w.since <= s.now <= w.since + s.limit)
    && (HoldsJob(w) ==> s.jobs[w.job].sent == 0 && s.jobs[w.job].dropped == 0)
    && (w.Exited? ==> s.closed && s.queue == [])
  }

  predicate JobOk(s: State, j: nat)
    requires j < |s.jobs|
  {
    && s.jobs[j].taken == (if j < Started(s) then 1 else 0)
    && (j >= Started(s) ==> s.jobs[j].sent == 0 && s.jobs[j].dropped == 0)
    && s.jobs[j].sent + s.jobs[j].dropped <= 1
    && (s.jobs[j].dropped > 0 ==> s.jobs[j].contextEnded)
    && (j < Started(s) && s.jobs[j].sent + s.jobs[j].dropped == 0 ==> HeldBySome(s, j))
  }

  predicate HeldBySome(s: State, j: nat)
  {
    exists w :: 0 <= w < |s.workers| && Holds(s, w, j)
  }

  predicate Holds(s: State, w: nat, j: nat)
    requires w < |s.workers|
  {
    HoldsJob(s.workers[w]) && s.workers[w].job == j
  }

  predicate Inv(s: State)
  {
    && |s.workers| >= 1
    && |s.queue| <= s.capacity
    && Fifo(s)
    && (forall w | 0 <= w < |s.workers| :: WorkerOk(s, s.workers[w]))
    && (forall j | 0 <= j < |s.jobs| :: JobOk(s, j))
    && (forall v, w | 0 <= v < w < |s.workers| && HoldsJob(s.workers[v]) && HoldsJob(s.workers[w]) ::
          s.workers[v].job != s.workers[w].job)
    && s.busy == Count(s.workers, CountedBusy)
    && |s.jobs| == |s.queue| + Count(s.workers, HoldsJob) + Sent(s.jobs) + Dropped(s.jobs)
  }

  lemma InitInv(s: State)
    requires Init(s)
    ensures Inv(s)
  {
    CountBounds(s.workers, CountedBusy);
    CountBounds(s.workers, HoldsJob);
  }

  /** The counters follow every step. */
  lemma StepKeepsCounts(s: State, e: Event, s': State)
    requires Inv(s) && Next(s, e, s')
    ensures s'.busy == Count(s'.workers, CountedBusy)
    ensures |s'.jobs| == |s'.queue| + Count(s'.workers, HoldsJob) + Sent(s'.jobs) + Dropped(s'.jobs)
  {
    StepCountsWorkers(s, e, s');
    StepCountsJobs(s, e, s');
  }

  /** A worker starts holding a job when it takes one and stops when the job is resolved; it is
      counted busy from the start of the call to the end of `process`. */
  lemma StepCountsWorkers(s: State, e: Event, s': State)
    requires Next(s, e, s')
    ensures Count(s'.workers, CountedBusy)
         == Count(s.workers, CountedBusy) + (if e.BeginCall? then 1 else if e.EndProcess? then -1 else 0)
    ensures Count(s'.workers, HoldsJob)
         == Count(s.workers, HoldsJob) + (if e.Receive? || e.Handoff? then 1 else if e.Send? || e.Drop? then -1 else 0)
  {
    if s'.workers != s.workers {
      assert s'.workers == s.workers[e.w := s'.workers[e.w]];
      WorkerUpdateCounts(s, e.w, s'.workers[e.w]);
    }
  }

  lemma StepCountsJobs(s: State, e: Event, s': State)
    requires Inv(s) && Next(s, e, s')
    ensures Sent(s'.jobs) == Sent(s.jobs) + (if e.Send? then 1 else 0)
    ensures Dropped(s'.jobs) == Dropped(s.jobs) + (if e.Drop? then 1 else 0)
  {
    if e.Enqueue? || e.Handoff? {
      JobsAppend(s.jobs, s'.jobs[|s.jobs|]);
    } else if s'.jobs != s.jobs {
      var j := if e.Receive? then s.queue[0] else if e.ContextEnds? then e.job else s.workers[e.w].job;
      assert s'.jobs == s.jobs[j := s'.jobs[j]];
      JobsUpdate(s.jobs, j, s'.jobs[j]);
    }
  }

  lemma WorkerUpdateCounts(s: State, w: nat, x: Worker)
    requires w < |s.workers|
    ensures Count(s.workers[w := x], CountedBusy)
         == Count(s.workers, CountedBusy) - (if CountedBusy(s.workers[w]) then 1 else 0) + (if CountedBusy(x) then 1 else 0)
    ensures Count(s.workers[w := x], HoldsJob)
         == Count(s.workers, HoldsJob) - (if HoldsJob(s.workers[w]) then 1 else 0) + (if HoldsJob(x) then 1 else 0)
  {
    CountUpdate(s.workers, CountedBusy, w, x);
    CountUpdate(s.workers, HoldsJob, w, x);
  }

  lemma StepKeepsWorker(s: State, e: Event, s': State, w: nat)
    requires Inv(s) && Next(s, e, s') && w < |s'.workers|
    ensures WorkerOk(s', s'.workers[w])
  {
    assert WorkerOk(s, s.workers[w]);
    if e.Receive? {
      assert JobOk(s, s.queue[0]);
    } else if (e.Send? || e.Drop?) && w != e.w && HoldsJob(s.workers[w]) {
      assert s.workers[w].job != s.workers[e.w].job;
    }
  }

  lemma StepKeepsQueue(s: State, e: Event, s': State)
    requires Inv(s) && Next(s, e, s')
    ensures |s'.queue| <= s'.capacity && Fifo(s')
  {
  }

  lemma StepKeepsOwners(s: State, e: Event, s': State, v: nat, w: nat)
    requires Inv(s) && Next(s, e, s') && v < w < |s'.workers|
    requires HoldsJob(s'.workers[v]) && HoldsJob(s'.workers[w])
    ensures s'.workers[v].job != s'.workers[w].job
  {
    assert WorkerOk(s, s.workers[v]) && WorkerOk(s, s.workers[w]);
  }

  lemma StepKeepsJob(s: State, e: Event, s': State, j: nat)
    requires Inv(s) && Next(s, e, s') && j < |s'.jobs|
    ensures JobOk(s', j)
  {
    if j < |s.jobs| {
      assert JobOk(s, j);
    }
    if j < Started(s') && s'.jobs[j].sent + s'.jobs[j].dropped == 0 {
      if j < Started(s) {
        var w :| 0 <= w < |s.workers| && Holds(s, w, j);
        assert Holds(s', w, j);
      } else {
        var w := e.w;
        assert Holds(s', w, j);
      }
    }
  }

  lemma StepKeepsInv(s: State, e: Event, s': State)
    requires Inv(s) && Next(s, e, s')
    ensures Inv(s')
  {
    StepKeepsCounts(s, e, s');
    StepKeepsQueue(s, e, s');
    forall w | 0 <= w < |s'.workers| ensures WorkerOk(s', s'.workers[w]) {
      StepKeepsWorker(s, e, s', w);
    }
    forall v, w | 0 <= v < w < |s'.workers| && HoldsJob(s'.workers[v]) && HoldsJob(s'.workers[w])
      ensures s'.workers[v].job != s'.workers[w].job
    {
      StepKeepsOwners(s, e, s', v, w);
    }
    forall j | 0 <= j < |s'.jobs| ensures JobOk(s', j) {
      StepKeepsJob(s, e, s', j);
    }
  }

  lemma {:induction false} RunKeepsInv(states: seq<State>, events: seq<Event>, i: nat)
    requires IsRun(states, events) && Init(states[0]) && i < |states|
    ensures Inv(states[i])
    ensures states[i].capacity == states[0].capacity && states[i].limit == states[0].limit
    ensures |states[i].workers| == |states[0].workers|
  {
    if i == 0 {
      InitInv(states[0]);
    } else {
      RunKeepsInv(states, events, i - 1);
      assert StepAt(states, events, i - 1);
      StepKeepsInv(states[i - 1], events[i - 1], states[i]);
    }
  }
}
