/** What the worker pool guarantees over whole runs: bounds, conservation, order, drain, waiting time. */
module WorkerPoolResults {
  import opened Arithmetic
  import opened WorkerPool
  import MLClient

  predicate InFlight(w: Worker)
  {
    w.Calling?
  }

  lemma {:induction false} CountMonotone(workers: seq<Worker>, p: Worker -> bool, q: Worker -> bool)
    requires forall w | w in workers :: p(w) ==> q(w)
    ensures Count(workers, p) <= Count(workers, q) <= |workers|
  {
    CountBounds(workers, q);
    if workers != [] {
      CountMonotone(workers[1..], p, q);
    }
  }

  /** In every reachable state: the queue and the in-flight calls are bounded, every accepted job is
      queued, held by a worker, delivered or dropped, and a job is dropped only if its own context
      has ended. */
  lemma PoolIsBounded(states: seq<State>, events: seq<Event>, i: nat)
    requires IsRun(states, events) && Init(states[0]) && i < |states|
    ensures var s, n := states[i], |states[0].workers|;
      && |s.queue| <= s.capacity == states[0].capacity
      && Count(s.workers, InFlight) <= s.busy <= n
      && |s.jobs| == |s.queue| + Count(s.workers, HoldsJob) + Sent(s.jobs) + Dropped(s.jobs)
      && |s.jobs| - Sent(s.jobs) - Dropped(s.jobs) <= s.capacity + n
      && forall j | 0 <= j < |s.jobs| ::
           && s.jobs[j].sent + s.jobs[j].dropped <= 1
           && (s.jobs[j].dropped > 0 ==> s.jobs[j].contextEnded)
  {
    RunKeepsInv(states, events, i);
    var s := states[i];
    CountMonotone(s.workers, InFlight, CountedBusy);
    CountBounds(s.workers, HoldsJob);
    forall j | 0 <= j < |s.jobs|
      ensures s.jobs[j].sent + s.jobs[j].dropped <= 1 && (s.jobs[j].dropped > 0 ==> s.jobs[j].contextEnded)
    {
      assert JobOk(s, j);
    }
  }

  // ---- order of starts ----

  predicate Starts(e: Event)
  {
    e.Receive? || e.Handoff?
  }

  /** The job a starting event gives to a worker. */
  function StartedJob(s: State, e: Event): int
    requires Starts(e)
  {
    if e.Receive? then (if s.queue != [] then s.queue[0] else -1) else |s.jobs|
  }

  lemma {:induction false} StartedGrows(states: seq<State>, events: seq<Event>, i: nat, k: nat)
    requires IsRun(states, events) && Init(states[0]) && i <= k < |states|
    ensures Started(states[i]) <= Started(states[k])
    decreases k - i
  {
    if i < k {
      RunKeepsInv(states, events, k - 1);
      StartedGrows(states, events, i, k - 1);
      assert StepAt(states, events, k - 1);
    }
  }

  /** Jobs start in submission order, each of them once. */
  lemma JobsStartInOrder(states: seq<State>, events: seq<Event>, i: nat, k: nat)
    requires IsRun(states, events) && Init(states[0]) && i < k < |events|
    requires Starts(events[i]) && Starts(events[k])
    ensures 0 <= StartedJob(states[i], events[i]) < StartedJob(states[k], events[k])
  {
    RunKeepsInv(states, events, i);
    RunKeepsInv(states, events, k);
    assert StepAt(states, events, i) && StepAt(states, events, k);
    StartedGrows(states, events, i + 1, k);
  }

  // ---- shutdown ----

  predicate AllExited(s: State)
  {
    forall w | 0 <= w < |s.workers| :: s.workers[w].Exited?
  }

  /** `Shutdown` returns nil once its wait group is done, that is when every worker has exited. Then
      nothing is left: the queue is empty and every accepted job was processed exactly once, with
      exactly one result unless its own context ended. */
  lemma ShutdownHasDrained(states: seq<State>, events: seq<Event>, i: nat, j: nat)
    requires IsRun(states, events) && Init(states[0]) && i < |states|
    requires AllExited(states[i])
    ensures states[i].closed && states[i].queue == [] && states[i].busy == 0
    ensures j < |states[i].jobs| ==>
      && states[i].jobs[j].taken == 1
      && states[i].jobs[j].sent + states[i].jobs[j].dropped == 1
      && (!states[i].jobs[j].contextEnded ==> states[i].jobs[j].sent == 1)
  {
    RunKeepsInv(states, events, i);
    var s := states[i];
    assert WorkerOk(s, s.workers[0]);
    CountBounds(s.workers, CountedBusy);
    if j < |s.jobs| {
      assert JobOk(s, j);
      assert !HeldBySome(s, j);
    }
  }

  /** Steps a worker still owes; a queued job costs five once a worker takes it. */
  function Owes(w: Worker): nat
  {
    match w
    case Taken(_, _) => 5
    case Calling(_, _) => 4
    case Answered(_, _) => 3
    case Resolved(_, _) => 2
    case Idle => 1
    case Exited => 0
  }

  function TotalOwed(workers: seq<Worker>): nat
  {
    if workers == [] then 0 else Owes(workers[0]) + TotalOwed(workers[1..])
  }

  lemma {:induction false} TotalOwedUpdate(workers: seq<Worker>, w: nat, x: Worker)
    requires w < |workers|
    ensures TotalOwed(workers[w := x]) == TotalOwed(workers) - Owes(workers[w]) + Owes(x)
  {
    if w == 0 {
      assert workers[0 := x][1..] == workers[1..];
    } else {
      TotalOwedUpdate(workers[1..], w - 1, x);
      assert workers[w := x][1..] == workers[1..][w - 1 := x];
    }
  }

  predicate WorkerEvent(e: Event)
  {
    !e.Tick? && !e.ContextEnds? && !e.Enqueue? && !e.Handoff? && !e.Close?
  }

  function DrainLeft(s: State): nat
  {
    5 * |s.queue| + TotalOwed(s.workers)
  }

  lemma DrainStep(s: State, e: Event, s': State)
    requires Inv(s) && Next(s, e, s') && s.closed
    ensures s'.closed
    ensures DrainLeft(s') == DrainLeft(s) - (if WorkerEvent(e) then 1 else 0)
  {
    if WorkerEvent(e) {
      assert s'.workers == s.workers[e.w := s'.workers[e.w]];
      TotalOwedUpdate(s.workers, e.w, s'.workers[e.w]);
    }
  }

  function WorkerSteps(events: seq<Event>): nat
  {
    if events == [] then 0
    else WorkerSteps(events[..|events| - 1]) + (if WorkerEvent(events[|events| - 1]) then 1 else 0)
  }

  lemma {:induction false} DrainRun(states: seq<State>, events: seq<Event>, i: nat, k: nat)
    requires IsRun(states, events) && Init(states[0]) && i <= k < |states| && states[i].closed
    ensures states[k].closed
    ensures DrainLeft(states[k]) == DrainLeft(states[i]) - WorkerSteps(events[i..k])
    decreases k - i
  {
    if i < k {
      DrainRun(states, events, i, k - 1);
      RunKeepsInv(states, events, k - 1);
      assert StepAt(states, events, k - 1);
      DrainStep(states[k - 1], events[k - 1], states[k]);
      var steps := events[i..k];
      assert steps[..|steps| - 1] == events[i..k - 1] && steps[|steps| - 1] == events[k - 1];
    }
  }

  lemma UnfinishedCanStep(s: State) returns (e: Event)
    requires Inv(s) && s.closed && !AllExited(s)
    ensures WorkerEvent(e) && Enabled(s, e)
  {
    var w :| 0 <= w < |s.workers| && !s.workers[w].Exited?;
    assert WorkerOk(s, s.workers[w]);
    match s.workers[w] {
      case Idle => e := if s.queue == [] then Exit(w) else Receive(w);
      case Taken(_, _) => e := BeginCall(w);
      case Calling(_, _) => e := EndCall(w);
      case Answered(_, _) => e := Send(w);
      case Resolved(_, _) => e := EndProcess(w);
    }
  }

  /** After the queue is closed the drain ends: the workers take a number of steps fixed at that
      moment, and as long as one of them is alive one of them can step. */
  lemma DrainTerminates(states: seq<State>, events: seq<Event>, i: nat, k: nat)
    requires IsRun(states, events) && Init(states[0]) && i <= k < |states| && states[i].closed
    ensures WorkerSteps(events[i..k]) <= DrainLeft(states[i])
    ensures (forall e, s' | WorkerEvent(e) :: !Next(states[k], e, s')) ==> AllExited(states[k])
  {
    DrainRun(states, events, i, k);
    RunKeepsInv(states, events, k);
    if !AllExited(states[k]) {
      var e := UnfinishedCanStep(states[k]);
      assert Next(states[k], e, Step(states[k], e));
    }
  }

  // ---- waiting time ----

  function Sum(counts: seq<nat>): nat
  {
    if counts == [] then 0 else counts[0] + Sum(counts[1..])
  }

  lemma {:induction false} SumUpdate(counts: seq<nat>, w: nat, x: nat)
    requires w < |counts|
    ensures Sum(counts[w := x]) == Sum(counts) - counts[w] + x
  {
    if w == 0 {
      assert counts[0 := x][1..] == counts[1..];
    } else {
      SumUpdate(counts[1..], w - 1, x);
      assert counts[w := x][1..] == counts[1..][w - 1 := x];
    }
  }

  function Zeros(n: nat): (r: seq<nat>)
    ensures |r| == n && Sum(r) == 0 && forall w | 0 <= w < n :: r[w] == 0
  {
    if n == 0 then [] else [0] + Zeros(n - 1)
  }

  /** Some worker has at most the average number of starts. */
  lemma {:induction false} LeastLoaded(counts: seq<nat>) returns (w: nat)
    requires counts != []
    ensures w < |counts| && counts[w] * |counts| <= Sum(counts)
  {
    if |counts| == 1 {
      assert counts[1..] == [];
      w := 0;
    } else {
      var v := LeastLoaded(counts[1..]);
      var rest := counts[1..];
      w := if counts[0] <= rest[v] then 0 else v + 1;
      assert |counts| == |rest| + 1;
      AverageStep(counts[w], counts[0], rest[v], |rest|, Sum(rest));
    }
  }

  lemma AverageStep(least: nat, head: nat, v: nat, n: nat, sum: nat)
    requires least <= head && least <= v && v * n <= sum
    ensures least * (n + 1) <= head + sum
  {
    assert least * n <= v * n;
    assert least * (n + 1) == least * n + least;
  }

  /** A worker that has started `c` jobs since `since` is at most `c` services further on: its
      current job began by then, or (idle) it may still begin one. */
  predicate OnPace(w: Worker, c: nat, since: nat, now: nat, limit: nat)
  {
    match w
    case Idle => now <= since + c * limit + limit
    case Exited => false
    case _ => w.since <= since + c * limit
  }

  predicate AllOnPace(s: State, counts: seq<nat>, since: nat)
  {
    && |counts| == |s.workers|
    && forall w | 0 <= w < |s.workers| :: OnPace(s.workers[w], counts[w], since, s.now, s.limit)
  }

  lemma PaceAtAcceptance(s: State, e: Event, s': State) returns (counts: seq<nat>)
    requires Inv(s) && Next(s, e, s') && e.Enqueue?
    ensures AllOnPace(s', counts, s.now) && Sum(counts) == 0
    ensures Started(s') == Started(s) && |s'.jobs| == |s.jobs| + 1
  {
    counts := Zeros(|s.workers|);
    assert forall w | 0 <= w < |s.workers| :: WorkerOk(s, s.workers[w]);
  }

  /** One worker's step: the limit of one service is what keeps it on pace. */
  lemma PaceOfWorker(s: State, e: Event, s': State, w: nat, c: nat, since: nat)
    requires Next(s, e, s') && w < |s.workers| && WorkerOk(s, s.workers[w])
    requires s.queue != []
    requires OnPace(s.workers[w], c, since, s.now, s.limit)
    ensures OnPace(s'.workers[w], if e.Receive? && e.w == w then c + 1 else c, since, s'.now, s'.limit)
  {
    assert (c + 1) * s.limit == c * s.limit + s.limit;
    if e.Tick? {
      assert AnyIdle(s) || !s.workers[w].Idle?;
    }
  }

  lemma PaceStep(s: State, e: Event, s': State, counts: seq<nat>, since: nat) returns (counts': seq<nat>)
    requires Inv(s) && Next(s, e, s')
    requires s.queue != []
    requires AllOnPace(s, counts, since)
    ensures AllOnPace(s', counts', since)
    ensures Sum(counts') - Sum(counts) == Started(s') - Started(s)
  {
    counts' := if e.Receive? then counts[e.w := counts[e.w] + 1] else counts;
    forall w | 0 <= w < |s.workers|
      ensures OnPace(s'.workers[w], counts'[w], since, s'.now, s'.limit)
    {
      assert WorkerOk(s, s.workers[w]);
      PaceOfWorker(s, e, s', w, counts[w], since);
    }
    if e.Receive? {
      SumUpdate(counts, e.w, counts[e.w] + 1);
    }
  }

  /** While the job accepted by event `i` is still queued, every worker is on pace. */
  lemma {:induction false} PaceWhileQueued(states: seq<State>, events: seq<Event>, i: nat, k: nat)
    returns (counts: seq<nat>)
    requires IsRun(states, events) && Init(states[0]) && i < |events| && i < k < |states|
    requires events[i].Enqueue?
    requires Started(states[k]) <= |states[i].jobs|
    ensures AllOnPace(states[k], counts, states[i].now)
    ensures Sum(counts) == Started(states[k]) - Started(states[i])
    ensures |states[k].jobs| > |states[i].jobs|
    decreases k - i
  {
    RunKeepsInv(states, events, k - 1);
    if k == i + 1 {
      assert StepAt(states, events, i);
      counts := PaceAtAcceptance(states[i], events[i], states[i + 1]);
    } else {
      StartedGrows(states, events, k - 1, k);
      JobsGrow(states, events, k - 1, k);
      var before := PaceWhileQueued(states, events, i, k - 1);
      assert StepAt(states, events, k - 1);
      counts := PaceStep(states[k - 1], events[k - 1], states[k], before, states[i].now);
    }
  }

  lemma {:induction false} JobsGrow(states: seq<State>, events: seq<Event>, i: nat, k: nat)
    requires IsRun(states, events) && i <= k < |states|
    ensures |states[i].jobs| <= |states[k].jobs|
    decreases k - i
  {
    if i < k {
      JobsGrow(states, events, i, k - 1);
      assert StepAt(states, events, k - 1);
    }
  }

  lemma PaceBoundsTime(w: Worker, c: nat, since: nat, now: nat, limit: nat, rounds: nat)
    requires OnPace(w, c, since, now, limit) && c <= rounds
    requires Active(w) ==> now <= w.since + limit
    ensures now <= since + (rounds + 1) * limit
  {
    TimesMonotone(c, rounds, limit);
    assert (rounds + 1) * limit == rounds * limit + limit;
  }

  /** A job accepted with q jobs ahead of it in the queue starts within (q / N + 1) services: as
      long as it is still queued, no more time than that has passed. */
  lemma WaitIsBounded(states: seq<State>, events: seq<Event>, i: nat, k: nat)
    requires IsRun(states, events) && Init(states[0]) && i < |events| && i < k < |states|
    requires events[i].Enqueue? && Started(states[k]) <= |states[i].jobs|
    ensures |states[0].workers| > 0
    ensures states[k].now <= states[i].now + (|states[i].queue| / |states[0].workers| + 1) * states[0].limit
  {
    RunKeepsInv(states, events, i);
    RunKeepsInv(states, events, k);
    var counts := PaceWhileQueued(states, events, i, k);
    var w := LeastLoaded(counts);
    DivideBound(counts[w], |counts|, |states[i].queue|);
    assert WorkerOk(states[k], states[k].workers[w]);
    PaceBoundsTime(states[k].workers[w], counts[w], states[i].now, states[k].now, states[k].limit,
                   |states[i].queue| / |counts|);
  }

  /** Rounding the capacity up: a full queue's worth of services. */
  function RoundsFor(capacity: nat, workers: nat): (rounds: nat)
    requires workers > 0
    ensures capacity <= rounds * workers < capacity + workers
  {
    (capacity + workers - 1) / workers
  }

  /** Whatever the load, an accepted job waits at most ceil(capacity / N) services, the service
      bound being that of the retry loop. */
  lemma WorstCaseWait(states: seq<State>, events: seq<Event>, i: nat, k: nat, maxRetries: int, timeout: nat)
    requires IsRun(states, events) && Init(states[0]) && i < |events| && i < k < |states|
    requires events[i].Enqueue? && Started(states[k]) <= |states[i].jobs|
    requires states[0].limit == MLClient.ServiceBound(maxRetries, timeout)
    ensures states[k].now - states[i].now
         <= RoundsFor(states[0].capacity, |states[0].workers|) * MLClient.ServiceBound(maxRetries, timeout)
  {
    WaitIsBounded(states, events, i, k);
    RunKeepsInv(states, events, i);
    assert StepAt(states, events, i);
    var n, q := |states[0].workers|, |states[i].queue|;
    RoundUp(q, states[0].capacity, n);
    TimesMonotone(q / n + 1, RoundsFor(states[0].capacity, n), states[0].limit);
  }

  lemma RoundUp(q: nat, c: nat, n: nat)
    requires n > 0 && q < c
    ensures q / n + 1 <= RoundsFor(c, n)
  {
    var d := q / n;
    assert d * n <= q;
    assert (d + 1) * n == d * n + n;
    DivideBound(d + 1, n, c + n - 1);
  }

  /** The bound is not bought by stopping the clock: whenever time cannot pass, some worker can
      step. That step ends an ML call only if the call has used up its bound. */
  lemma TimeNeverSticks(states: seq<State>, events: seq<Event>, i: nat) returns (e: Event)
    requires IsRun(states, events) && Init(states[0]) && i < |states|
    ensures e.Tick? || WorkerEvent(e)
    ensures Enabled(states[i], e)
    ensures e.EndCall? ==> states[i].now == states[i].workers[e.w].since + states[i].limit
  {
    RunKeepsInv(states, events, i);
    var s := states[i];
    if CanTick(s) {
      e := Tick;
    } else if s.queue != [] && AnyIdle(s) {
      var w :| 0 <= w < |s.workers| && s.workers[w].Idle?;
      assert Fifo(s);
      e := Receive(w);
    } else {
      var w :| 0 <= w < |s.workers| && Active(s.workers[w]) && s.now + 1 > s.workers[w].since + s.limit;
      assert WorkerOk(s, s.workers[w]);
      match s.workers[w] {
        case Taken(_, _) => e := BeginCall(w);
        case Calling(_, _) => e := EndCall(w);
        case Answered(_, _) => e := Send(w);
        case Resolved(_, _) => e := EndProcess(w);
      }
    }
  }
}
