/** The worker pool object (backend/internal/workers/pool.go): its methods are steps of the machine
    in WorkerPool. */
module WorkerPoolApi {
  import opened Common
  import opened WorkerPool

  datatype SubmitResult = Accepted | QueueFull | ShuttingDown

  /** The step an accepted submission is. */
  function Submission(parked: Option<nat>, contextEnded: bool): Event
  {
    if parked.Some? then Handoff(parked.value, contextEnded) else Enqueue(contextEnded)
  }

  class Pool {
    const capacity: nat
    const limit: nat
    var now: nat
    var closed: bool
    var queue: seq<nat>
    var busyWorkers: int
    var jobs: seq<Job>
    var workers: seq<Worker>

    function Abs(): State
      reads this
    {
      State(capacity, limit, now, closed, queue, busyWorkers, jobs, workers)
    }

    /** `NewPool` and `Start`. */
    constructor (capacity: nat, limit: nat, numWorkers: nat)
      requires numWorkers >= 1
      ensures Init(Abs()) && Inv(Abs())
      ensures this.capacity == capacity && this.limit == limit && |workers| == numWorkers
    {
      this.capacity, this.limit := capacity, limit;
      now, closed, queue, busyWorkers, jobs := 0, false, [], 0, [];
      workers := seq(numWorkers, _ => Idle);
      new;
      InitInv(Abs());
    }

    /** `parked` is a worker blocked in its receive, if there is one; a worker blocks only while the
        queue is empty. */
    predicate MayBeParked(parked: Option<nat>)
      reads this
    {
      parked.Some? ==> queue == [] && parked.value < |workers| && workers[parked.value].Idle?
    }

    /** Never blocks. The send hands the job to a parked worker, else it takes a free place in the
        buffer, else (at capacity 0, at once) it is an error; so is a pool that is shutting down. */
    method Submit(contextEnded: bool, parked: Option<nat>) returns (r: SubmitResult)
      requires Inv(Abs()) && MayBeParked(parked)
      modifies this
      ensures Inv(Abs())
      ensures r.Accepted? <==> !old(closed) && (parked.Some? || |old(queue)| < capacity)
      ensures r.Accepted? && parked.None? ==>
        queue == old(queue) + [|old(jobs)|] && jobs == old(jobs) + [Job(contextEnded, 0, 0, 0)] && workers == old(workers)
      ensures r.Accepted? && parked.Some? ==>
        && queue == [] && jobs == old(jobs) + [Job(contextEnded, 1, 0, 0)]
        && workers == old(workers)[parked.value := Taken(|old(jobs)|, now)]
      ensures r.Accepted? ==> Abs() == Step(old(Abs()), Submission(parked, contextEnded))
      ensures !r.Accepted? ==> Abs() == old(Abs())
      ensures r.ShuttingDown? <==> old(closed)
    {
      ghost var before := Abs();
      if closed {
        return ShuttingDown;
      }
      if parked.Some? {
        workers := workers[parked.value := Taken(|jobs|, now)];
        jobs := jobs + [Job(contextEnded, 1, 0, 0)];
        StepKeepsInv(before, Handoff(parked.value, contextEnded), Abs());
        return Accepted;
      }
      if |queue| < capacity {
        queue := queue + [|jobs|];
        jobs := jobs + [Job(contextEnded, 0, 0, 0)];
        StepKeepsInv(before, Enqueue(contextEnded), Abs());
        return Accepted;
      }
      return QueueFull;
    }

    /** The receive of `runWorker`: takes the oldest job, or exits once the channel is closed and
        drained. While the channel is open and empty the worker stays blocked. */
    method Receive(w: nat) returns (blocked: bool)
      requires Inv(Abs()) && w < |workers| && workers[w].Idle?
      modifies this
      ensures Inv(Abs())
      ensures blocked <==> old(queue) == [] && !old(closed)
      ensures blocked ==> Abs() == old(Abs())
      ensures old(queue) != [] ==> Next(old(Abs()), Event.Receive(w), Abs())
      ensures old(queue) != [] ==> queue == old(queue)[1..] && workers == old(workers)[w := Taken(old(queue)[0], now)]
      ensures old(queue) == [] && old(closed) ==> workers == old(workers)[w := Exited] && jobs == old(jobs)
      ensures old(queue) == [] && old(closed) ==> Next(old(Abs()), Exit(w), Abs())
    {
      ghost var before := Abs();
      if queue != [] {
        var j := queue[0];
        assert Fifo(before);
        queue := queue[1..];
        jobs := jobs[j := jobs[j].(taken := jobs[j].taken + 1)];
        workers := workers[w := Taken(j, now)];
        StepKeepsInv(before, Event.Receive(w), Abs());
        return false;
      }
      if closed {
        workers := workers[w := Exited];
        StepKeepsInv(before, Exit(w), Abs());
        return false;
      }
      return true;
    }

    /** Counts the worker busy and makes the ML call. */
    method Call(w: nat)
      requires Inv(Abs()) && w < |workers| && workers[w].Taken?
      modifies this`busyWorkers, this`workers
      ensures Inv(Abs()) && busyWorkers == old(busyWorkers) + 1
      ensures workers == old(workers)[w := Answered(old(workers[w].job), old(workers[w].since))]
    {
      ghost var s := Abs();
      busyWorkers := busyWorkers + 1;
      workers := workers[w := Calling(workers[w].job, workers[w].since)];
      StepKeepsInv(s, BeginCall(w), Abs());
      s := Abs();
      workers := workers[w := Answered(workers[w].job, workers[w].since)];
      StepKeepsInv(s, EndCall(w), Abs());
    }

    /** The select at the end of `process`: send the result, or drop it if the caller is gone. */
    method Resolve(w: nat) returns (delivered: bool)
      requires Inv(Abs()) && w < |workers| && workers[w].Answered? && workers[w].job < |jobs|
      modifies this`jobs, this`workers
      ensures Inv(Abs()) && workers == old(workers)[w := Resolved(old(workers[w].job), old(workers[w].since))]
      ensures jobs == old(jobs)[old(workers[w].job) :=
        old(jobs[workers[w].job]).(sent := if delivered then 1 else 0, dropped := if delivered then 0 else 1)]
      ensures !delivered ==> old(jobs[workers[w].job].contextEnded)
    {
      ghost var s := Abs();
      assert WorkerOk(s, s.workers[w]);
      var j := workers[w].job;
      delivered := *;
      if delivered || !jobs[j].contextEnded {
        delivered := true;
        jobs := jobs[j := jobs[j].(sent := jobs[j].sent + 1)];
        workers := workers[w := Resolved(j, workers[w].since)];
        StepKeepsInv(s, Send(w), Abs());
      } else {
        jobs := jobs[j := jobs[j].(dropped := jobs[j].dropped + 1)];
        workers := workers[w := Resolved(j, workers[w].since)];
        StepKeepsInv(s, Drop(w), Abs());
      }
    }

    /** `process`, undisturbed: the job ends with one result sent, or dropped if its context has
        ended, and the busy count is back where it was. */
    method Process(w: nat) returns (delivered: bool)
      requires Inv(Abs()) && w < |workers| && workers[w].Taken?
      modifies this`busyWorkers, this`jobs, this`workers
      ensures Inv(Abs()) && busyWorkers == old(busyWorkers)
      ensures workers == old(workers)[w := Idle] && old(workers[w].job) < |old(jobs)|
      ensures jobs == old(jobs)[old(workers[w].job) :=
        old(jobs)[old(workers[w].job)].(sent := if delivered then 1 else 0, dropped := if delivered then 0 else 1)]
      ensures !delivered ==> old(jobs)[old(workers[w].job)].contextEnded
    {
      assert WorkerOk(Abs(), Abs().workers[w]);
      Call(w);
      delivered := Resolve(w);
      ghost var s := Abs();
      busyWorkers := busyWorkers - 1;
      workers := workers[w := Idle];
      StepKeepsInv(s, EndProcess(w), Abs());
    }

    /** Sets the flag and closes the channel; the wait that follows is a run of the machine. */
    method Shutdown()
      requires Inv(Abs()) && !closed
      modifies this`closed
      ensures Inv(Abs()) && closed && Abs() == Step(old(Abs()), Close)
    {
      ghost var before := Abs();
      closed := true;
      StepKeepsInv(before, Close, Abs());
    }

    method Stats() returns (queueLength: nat, queueCapacity: nat, busy: int)
      requires Inv(Abs())
      ensures queueLength == |queue| <= queueCapacity == capacity
      ensures busy == busyWorkers && 0 <= busy <= |workers|
    {
      CountBounds(workers, CountedBusy);
      queueLength, queueCapacity, busy := |queue|, capacity, busyWorkers;
    }
  }
}
