/** `AssignTrip` and the dispatch branches of `CreateTrip` as the programs they are
    (backend/internal/dispatch/postgres_repository.go, lines 176-256, and
    backend/internal/handlers/handlers.go, lines 278-311).

    Between two statements of one transaction, any number of steps of the other transactions may be
    committed. `Rely` says what those can do to the tables; `OthersKeepRely` proves it of the
    protocol's state machine, and `AssignTrip` is proved correct under it. */
module AssignTrip {
  import opened Common
  import opened Ordering
  import opened Fleet
  import opened DispatchProtocol
  import opened DispatchSafety

  /** Other transactions only turn AVAILABLE drivers BUSY and dispatch PENDING trips (or insert
      trips), never a row this transaction has locked nor the trip `own` that only it was asked to
      assign, and they keep the tables linked. */
  ghost predicate Rely(a: Tables, b: Tables, claim: Option<DriverId>, row: Option<TripId>, own: Option<TripId>)
  {
    && a.drivers.Keys == b.drivers.Keys
    && (forall d | d in a.drivers ::
          && b.drivers[d].at == a.drivers[d].at
          && (b.drivers[d].status == a.drivers[d].status
              || (a.drivers[d].status == Available && b.drivers[d].status == Busy && claim != Some(d))))
    && (forall t | t in a.trips ::
          && t in b.trips
          && (b.trips[t] == a.trips[t]
              || (a.trips[t].status == Pending && b.trips[t].status == Dispatched && row != Some(t) && own != Some(t))))
    && (Linked(a) ==> Linked(b))
  }

  lemma RelyTransitive(a: Tables, b: Tables, c: Tables, claim: Option<DriverId>, row: Option<TripId>, own: Option<TripId>)
    requires Rely(a, b, None, None, own) && Rely(b, c, claim, row, own)
    ensures Rely(a, c, None, None, own)
  {
  }

  function ClaimOf(tx: Tx): Option<DriverId>
  {
    if HoldsClaim(tx) then Some(tx.cands[tx.pc.next].id) else None
  }

  function RowOf(tx: Tx): Option<TripId>
  {
    if tx.pc.Written? then Some(tx.trip) else None
  }

  /** A commit touches only rows that nobody else has locked. */
  lemma AssignKeepsRely(a: Tables, t: TripId, d: DriverId, claim: Option<DriverId>, row: Option<TripId>, own: Option<TripId>)
    requires IsAvailable(a.drivers, d) && TripPending(a, t)
    requires claim != Some(d) && row != Some(t) && own != Some(t)
    ensures Rely(a, Assign(a, t, d), claim, row, own)
  {
    if Linked(a) {
      CommitKeepsLinked(a, t, d);
    }
  }

  lemma StepKeepsRely(km: Metric, s: State, e: Event, s': State, x: nat, own: Option<TripId>)
    requires Inv(km, s) && Inv(km, s') && Step(km, s, e, s') && x < |s.txs| && (e.Act? ==> e.x != x)
    requires own.None? || (own == Some(s.txs[x].trip) && DistinctTrips(s.txs))
    ensures Rely(s.tables, s'.tables, ClaimOf(s.txs[x]), RowOf(s.txs[x]), own)
  {
    if e.Act? && (e.action.Commit? || e.action.LoseAck?) {
      var tx := s.txs[e.x];
      assert TxInv(km, s.tables, tx) && Compatible(tx, s.txs[x]);
      AssignKeepsRely(s.tables, tx.trip, tx.cands[tx.pc.next].id, ClaimOf(s.txs[x]), RowOf(s.txs[x]), own);
    }
  }

  /** Whatever another transaction does in a reachable state respects transaction `x`; with distinct
      trips that includes the trip `x` is to assign, whether `x` has written it yet or not. */
  lemma OthersKeepRely(km: Metric, states: seq<State>, events: seq<Event>, i: nat, x: nat)
    requires IsRun(km, states, events) && Init(states[0]) && i < |events|
    requires x < |states[i].txs| && (events[i].Act? ==> events[i].x != x)
    ensures var tx := states[i].txs[x];
      && Rely(states[i].tables, states[i + 1].tables, ClaimOf(tx), RowOf(tx), None)
      && (DistinctTrips(states[0].txs) ==>
            Rely(states[i].tables, states[i + 1].tables, ClaimOf(tx), RowOf(tx), Some(tx.trip)))
  {
    InitInv(km, states[0]);
    RunKeepsInv(km, states, events, i);
    RunKeepsInv(km, states, events, i + 1);
    assert StepAt(km, states, events, i);
    StepKeepsRely(km, states[i], events[i], states[i + 1], x, None);
    if DistinctTrips(states[0].txs) {
      RequestsStay(km, states, events, i);
      StepKeepsRely(km, states[i], events[i], states[i + 1], x, Some(states[i].txs[x].trip));
    }
  }

  lemma CoverSurvives(km: Metric, pickup: Location, a: Tables, b: Tables, cands: seq<Candidate>, n: nat,
                      claim: Option<DriverId>, row: Option<TripId>, own: Option<TripId>)
    requires CandidatesCover(km, pickup, a.drivers, cands) && n <= |cands|
    requires forall i | 0 <= i < n :: !IsAvailable(a.drivers, cands[i].id)
    requires Rely(a, b, claim, row, own)
    ensures CandidatesCover(km, pickup, b.drivers, cands)
    ensures forall i | 0 <= i < n :: !IsAvailable(b.drivers, cands[i].id)
  {
  }

  /** The first candidate that is still AVAILABLE is the nearest driver. */
  lemma FirstAvailableIsNearest(km: Metric, pickup: Location, drivers: Drivers, cands: seq<Candidate>, n: nat)
    requires CandidatesCover(km, pickup, drivers, cands) && n < |cands|
    requires forall i | 0 <= i < n :: !IsAvailable(drivers, cands[i].id)
    requires IsAvailable(drivers, cands[n].id)
    ensures IsNearest(km, pickup, drivers, cands[n].id)
  {
    forall other | other in drivers && other != cands[n].id && drivers[other].status == Available
      ensures Before(CandidateOf(km, pickup, drivers, cands[n].id), CandidateOf(km, pickup, drivers, other))
    {
      assert Lists(cands, other);
      var j :| 0 <= j < |cands| && cands[j].id == other;
      assert j > n;
    }
  }

  /** What holds each time the loop is about to try candidate `n`. */
  ghost predicate LoopInv(km: Metric, pickup: Location, cands: seq<Candidate>, n: nat, start: Tables, now: Tables, own: Option<TripId>)
  {
    && n <= |cands| && Linked(now) && Rely(start, now, None, None, own)
    && CandidatesCover(km, pickup, now.drivers, cands)
    && forall i | 0 <= i < n :: !IsAvailable(now.drivers, cands[i].id)
  }

  /** What a transaction with this outcome has committed itself. */
  function Wrote(trip: TripId, o: Outcome): seq<(TripId, DriverId)>
  {
    match o
    case Assigned(d, _) => [(trip, d)]
    case AckLost(d) => [(trip, d)]
    case _ => []
  }

  /** What `AssignTrip` promises about the tables. A success has committed, in the state `before`,
      exactly this trip with the driver that was nearest at that moment. With any error but a lost
      acknowledgement only the others have changed anything since the start, and a trip refused as
      no longer PENDING was so, in the state `before`. */
  ghost predicate Answers(km: Metric, trip: TripId, pickup: Location, own: Option<TripId>, start: Tables,
                          o: Outcome, before: Tables, after: Tables)
  {
    && Linked(after) && Rely(start, before, None, None, own)
    && (match o
        case Assigned(d, dist) =>
          && TripPending(before, trip) && IsNearest(km, pickup, before.drivers, d)
          && dist == km(pickup, before.drivers[d].at) && after == Assign(before, trip, d)
        case AckLost(d) =>
          && TripPending(before, trip) && IsNearest(km, pickup, before.drivers, d)
          && after == Assign(before, trip, d)
        case TripNotPending => Rely(start, after, None, None, own) && !TripPending(before, trip)
        case NoDrivers => Rely(start, after, None, None, own) && AvailableIds(after.drivers) == {}
        case Failed => Rely(start, after, None, None, own))
  }

  /** `inv` survives whatever the others commit. */
  ghost predicate Stable(inv: Tables -> bool, own: Option<TripId>)
  {
    forall a, b | inv(a) && Rely(a, b, None, None, own) :: inv(b)
  }

  /** The loop invariant as a condition on the tables. */
  ghost function TurnInv(km: Metric, pickup: Location, cands: seq<Candidate>, n: nat, start: Tables, own: Option<TripId>): Tables -> bool
  {
    now => LoopInv(km, pickup, cands, n, start, now, own)
  }

  lemma LoopInvIsStable(km: Metric, pickup: Location, cands: seq<Candidate>, n: nat, start: Tables, own: Option<TripId>)
    ensures Stable(TurnInv(km, pickup, cands, n, start, own), own)
  {
    forall a, b | LoopInv(km, pickup, cands, n, start, a, own) && Rely(a, b, None, None, own)
      ensures LoopInv(km, pickup, cands, n, start, b, own)
    {
      RelyTransitive(start, a, b, None, None, own);
      CoverSurvives(km, pickup, a, b, cands, n, None, None, own);
    }
  }

  /** A candidate that is gone stays gone. */
  lemma LostCandidate(km: Metric, pickup: Location, cands: seq<Candidate>, n: nat, start: Tables, now: Tables, own: Option<TripId>)
    requires LoopInv(km, pickup, cands, n, start, now, own) && n < |cands| && !IsAvailable(now.drivers, cands[n].id)
    ensures LoopInv(km, pickup, cands, n + 1, start, now, own)
  {
  }

  /** How a turn that reaches a claim or an error ends: what it commits, in which state, and why. */
  predicate Ends(trip: TripId, cand: Candidate, o: Outcome, before: Tables, after: Tables)
  {
    match o
    case Assigned(d, dist) =>
      d == cand.id && dist == cand.km && IsAvailable(before.drivers, d) && TripPending(before, trip) && after == Assign(before, trip, d)
    case AckLost(d) =>
      d == cand.id && IsAvailable(before.drivers, d) && TripPending(before, trip) && after == Assign(before, trip, d)
    case TripNotPending => !TripPending(before, trip) && after == before
    case Failed => after == before
    case NoDrivers => false
  }

  /** Ending so with the candidate whose turn it is, is a right answer: the first candidate of the
      stale list that is still AVAILABLE is the nearest driver. */
  lemma TurnAnswers(km: Metric, trip: TripId, pickup: Location, cands: seq<Candidate>, n: nat, start: Tables,
                    own: Option<TripId>, o: Outcome, before: Tables, after: Tables)
    requires LoopInv(km, pickup, cands, n, start, before, own) && n < |cands|
    requires Ends(trip, cands[n], o, before, after)
    ensures Answers(km, trip, pickup, own, start, o, before, after)
  {
    if o.Assigned? || o.AckLost? {
      FirstAvailableIsNearest(km, pickup, before.drivers, cands, n);
      CommitKeepsLinked(before, trip, cands[n].id);
    }
  }

  /** The statement number `at` of the session ends in an error. If it is a COMMIT, `applied` says
      that it took effect all the same. */
  datatype Fault = Fault(at: nat, applied: bool)

  /** One session of the database: the committed tables as this session finds them, and the row
      locks its open transaction holds. `commits` lists what this session has committed itself. */
  class Session {
    var drivers: Drivers
    var trips: Trips
    var claim: Option<DriverId>
    var row: Option<TripId>
    ghost var own: Option<TripId>
    ghost var commits: seq<(TripId, DriverId)>
    const fault: Option<Fault>
    var executed: nat // statements sent so far

    constructor (drivers: Drivers, trips: Trips, fault: Option<Fault>)
      ensures this.drivers == drivers && this.trips == trips && this.fault == fault
      ensures claim == None && row == None && own == None && commits == [] && executed == 0
    {
      this.drivers, this.trips, this.fault := drivers, trips, fault;
      claim, row, own, commits, executed := None, None, None, [], 0;
    }

    predicate FaultWithin(from: nat, to: nat)
    {
      fault.Some? && from <= fault.value.at < to
    }

    /** Sends the next statement; `ok` is false if it is the one that ends in an error. */
    method Statement() returns (ok: bool)
      modifies this`executed
      ensures executed == old(executed) + 1
      ensures ok <==> !FaultWithin(old(executed), executed)
    {
      ok := !(fault.Some? && fault.value.at == executed);
      executed := executed + 1;
    }

    ghost function Committed(): Tables
      reads this`drivers, this`trips
    {
      Tables(drivers, trips)
    }

    /** The other transactions run until this session's next statement gets its turn (and its row
        lock). Callers know only this contract, so they must be right for every number of commits; the
        body is the case of none. */
    method Others()
      modifies this`drivers, this`trips
      ensures Rely(old(Committed()), Committed(), claim, row, own)
    {
    }

    /** SELECT ... WHERE status = 'AVAILABLE'. */
    method SelectAvailable() returns (rows: seq<DriverId>)
      ensures forall i, j | 0 <= i < j < |rows| :: rows[i] != rows[j]
      ensures forall id :: id in rows <==> IsAvailable(drivers, id)
    {
      rows := [];
      var rest := AvailableIds(drivers);
      while rest != {}
        invariant rest <= AvailableIds(drivers)
        invariant forall i, j | 0 <= i < j < |rows| :: rows[i] != rows[j]
        invariant forall id :: id in rows <==> id in AvailableIds(drivers) - rest
        decreases rest
      {
        var id :| id in rest;
        assert id !in rows;
        rest := rest - {id};
        rows := rows + [id];
      }
    }

    /** UPDATE drivers SET status = 'BUSY' WHERE id = $1 AND status = 'AVAILABLE': the row is locked
        and its new value stays private until COMMIT. */
    method UpdateDriver(id: DriverId) returns (matched: bool)
      modifies this`claim
      ensures matched <==> IsAvailable(drivers, id)
      ensures claim == if matched then Some(id) else old(claim)
    {
      matched := id in drivers && drivers[id].status == Available;
      if matched {
        claim := Some(id);
      }
    }

    /** UPDATE trips SET driver_id = $2, status = 'DISPATCHED' WHERE id = $1 AND status = 'PENDING'. */
    method UpdateTrip(t: TripId) returns (matched: bool)
      modifies this`row
      ensures matched <==> TripPending(Committed(), t)
      ensures row == if matched then Some(t) else old(row)
    {
      matched := t in trips && trips[t].status == Pending;
      if matched {
        row := Some(t);
      }
    }

    method CommitTx()
      requires claim.Some? && claim.value in drivers && row.Some?
      modifies this`drivers, this`trips, this`claim, this`row, this`commits
      ensures Committed() == Assign(old(Committed()), old(row).value, old(claim).value)
      ensures commits == old(commits) + [(old(row).value, old(claim).value)]
      ensures claim == None && row == None
    {
      commits := commits + [(row.value, claim.value)];
      drivers := drivers[claim.value := drivers[claim.value].(status := Busy)];
      trips := trips[row.value := Trip(Dispatched, claim)];
      claim, row := None, None;
    }

    method Rollback()
      modifies this`claim, this`row
      ensures claim == None && row == None
    {
      claim, row := None, None;
    }

    /** Builds the candidate list from the rows and sorts it in place. */
    method RankCandidates(km: Metric, pickup: Location, rows: seq<DriverId>) returns (cands: seq<Candidate>)
      requires forall i, j | 0 <= i < j < |rows| :: rows[i] != rows[j]
      requires forall id :: id in rows <==> IsAvailable(drivers, id)
      ensures IsRanking(km, pickup, drivers, cands)
    {
      assert forall k | 0 <= k < |rows| :: rows[k] in rows;
      var list := [];
      var k := 0;
      while k < |rows|
        invariant 0 <= k == |list| <= |rows|
        invariant forall i | 0 <= i < k :: rows[i] in drivers && list[i] == CandidateOf(km, pickup, drivers, rows[i])
      {
        list := list + [Candidate(rows[k], km(pickup, drivers[rows[k]].at))];
        k := k + 1;
      }
      var a := new Candidate[|list|](i requires 0 <= i < |list| => list[i]);
      assert a[..] == list;
      BeforeIsStrictTotal();
      SortInPlace(a, Before);
      cands := a[..];
      SortedRowsAreRanking(km, pickup, drivers, rows, list, cands);
    }

    /** The others run: whatever is stable under their commits still holds, and the claimed driver and
        the written trip stay as this session found them. */
    method OthersKeep(ghost inv: Tables -> bool)
      requires inv(Committed()) && Stable(inv, own)
      modifies this`drivers, this`trips
      ensures inv(Committed())
      ensures claim.Some? && IsAvailable(old(drivers), claim.value) ==> IsAvailable(drivers, claim.value)
      ensures row.Some? && TripPending(old(Committed()), row.value) ==> TripPending(Committed(), row.value)
    {
      ghost var seen := Committed();
      Others();
      assert Rely(seen, Committed(), None, None, own);
    }

    /** One turn of the candidate loop; `None` is `continue`. */
    method TryCandidate(km: Metric, trip: TripId, pickup: Location, cands: seq<Candidate>, n: nat, ghost start: Tables)
      returns (o: Option<Outcome>, ghost before: Tables)
      requires claim == None && row == None && n < |cands|
      requires LoopInv(km, pickup, cands, n, start, Committed(), own)
      modifies this`drivers, this`trips, this`claim, this`row, this`commits, this`executed
      ensures claim == None && row == None
      ensures o.None? ==> LoopInv(km, pickup, cands, n + 1, start, Committed(), own) && commits == old(commits)
      ensures o.Some? ==>
        && !o.value.NoDrivers? && Answers(km, trip, pickup, own, start, o.value, before, Committed())
        && commits == old(commits) + Wrote(trip, o.value)
      ensures o.Some? && (o.value.Failed? || o.value.AckLost?) <==> FaultWithin(old(executed), executed)
      ensures o.Some? && o.value.AckLost? ==> fault.value.applied
      ensures old(executed) <= executed
    {
      LoopInvIsStable(km, pickup, cands, n, start, own);
      o, before := Claim(trip, cands[n], TurnInv(km, pickup, cands, n, start, own));
      if o.None? {
        LostCandidate(km, pickup, cands, n, start, Committed(), own);
      } else {
        TurnAnswers(km, trip, pickup, cands, n, start, own, o.value, before, Committed());
      }
    }

    /** The turn itself: claims the candidate, unless it is gone, and assigns it. */
    method Claim(trip: TripId, cand: Candidate, ghost inv: Tables -> bool)
      returns (o: Option<Outcome>, ghost before: Tables)
      requires claim == None && row == None && inv(Committed()) && Stable(inv, own)
      modifies this`drivers, this`trips, this`claim, this`row, this`commits, this`executed
      ensures claim == None && row == None && inv(before)
      ensures o.None? ==> before == Committed() && !IsAvailable(drivers, cand.id) && commits == old(commits)
      ensures o.Some? ==> Ends(trip, cand, o.value, before, Committed()) && commits == old(commits) + Wrote(trip, o.value)
      ensures o.Some? && (o.value.Failed? || o.value.AckLost?) <==> FaultWithin(old(executed), executed)
      ensures o.Some? && o.value.AckLost? ==> fault.value.applied
      ensures old(executed) <= executed
    {
      OthersKeep(inv);
      before := Committed();
      var ok := Statement();
      if !ok { return Some(Failed), before; }
      var claimed := UpdateDriver(cand.id);
      if !claimed { return None, before; }
      var outcome;
      outcome, before := AssignClaimed(trip, cand, inv);
      o := Some(outcome);
    }

    /** The rest of the turn, once the candidate is claimed. */
    method AssignClaimed(trip: TripId, cand: Candidate, ghost inv: Tables -> bool) returns (o: Outcome, ghost before: Tables)
      requires claim == Some(cand.id) && row == None && IsAvailable(drivers, cand.id)
      requires inv(Committed()) && Stable(inv, own)
      modifies this`drivers, this`trips, this`claim, this`row, this`commits, this`executed
      ensures claim == None && row == None && inv(before) && Ends(trip, cand, o, before, Committed())
      ensures commits == old(commits) + Wrote(trip, o)
      ensures o.Failed? || o.AckLost? <==> FaultWithin(old(executed), executed)
      ensures o.AckLost? ==> fault.value.applied
      ensures old(executed) <= executed
    {
      OthersKeep(inv);
      before := Committed();
      var ok := Statement();
      if !ok { Rollback(); return Failed, before; }
      var updated := UpdateTrip(trip);
      if !updated { Rollback(); return TripNotPending, before; }
      o, before := CommitAssignment(trip, cand, inv);
    }

    /** Both rows are written and locked: COMMIT. */
    method CommitAssignment(trip: TripId, cand: Candidate, ghost inv: Tables -> bool) returns (o: Outcome, ghost before: Tables)
      requires claim == Some(cand.id) && row == Some(trip) && IsAvailable(drivers, cand.id) && TripPending(Committed(), trip)
      requires inv(Committed()) && Stable(inv, own)
      modifies this`drivers, this`trips, this`claim, this`row, this`commits, this`executed
      ensures claim == None && row == None && inv(before) && Ends(trip, cand, o, before, Committed())
      ensures commits == old(commits) + Wrote(trip, o) && !o.TripNotPending?
      ensures o.Failed? || o.AckLost? <==> FaultWithin(old(executed), executed)
      ensures o.AckLost? ==> fault.value.applied
      ensures old(executed) <= executed
    {
      OthersKeep(inv);
      before := Committed();
      var ok := Statement();
      if !ok && !fault.value.applied { Rollback(); return Failed, before; }
      CommitTx();
      o := if ok then Assigned(cand.id, cand.km) else AckLost(cand.id);
    }

    /** The whole method, with the other transactions running between its statements. It ends in an
        infrastructure error exactly when one of its own statements does; losing candidates to others
        is no error. It commits exactly what its outcome says. A trip that was PENDING and that nobody
        else assigns is never refused. */
    method AssignTrip(km: Metric, trip: TripId, pickup: Location) returns (o: Outcome, ghost before: Tables)
      requires claim == None && row == None && Linked(Committed())
      modifies this`drivers, this`trips, this`claim, this`row, this`commits, this`executed
      ensures claim == None && row == None
      ensures Answers(km, trip, pickup, own, old(Committed()), o, before, Committed())
      ensures commits == old(commits) + Wrote(trip, o)
      ensures o.Failed? || o.AckLost? <==> FaultWithin(old(executed), executed)
      ensures o.AckLost? ==> fault.value.applied
      ensures own == Some(trip) && TripPending(old(Committed()), trip) ==> !o.TripNotPending?
    {
      ghost var start := Committed();
      before := start;
      var ok := Statement();
      if !ok { return Failed, before; }
      Others();
      before := Committed();
      ok := Statement();
      if !ok { return Failed, before; }
      var rows := SelectAvailable();
      var cands := RankCandidates(km, pickup, rows);
      if cands == [] {
        RankingHeadIsNearest(km, pickup, drivers, cands);
        return NoDrivers, before;
      }
      var n := 0;
      while n < |cands|
        invariant 0 <= n <= |cands|
        invariant claim == None && row == None && commits == old(commits)
        invariant old(executed) <= executed && !FaultWithin(old(executed), executed)
        invariant LoopInv(km, pickup, cands, n, start, Committed(), own)
      {
        var answer;
        answer, before := TryCandidate(km, trip, pickup, cands, n, start);
        if answer.Some? {
          return answer.value, before;
        }
        n := n + 1;
      }
      assert forall d | d in AvailableIds(drivers) :: Lists(cands, d);
      o, before := NoDrivers, Committed();
    }
  }

  /** The PostgreSQL branch of `CreateTrip`: the trip is inserted PENDING, then assigned. No other
      request assigns this trip (`own`), since its id was generated for this one. The reply, and with it
      the logged "trip stays pending", agrees with the stored row if and only if the COMMIT's
      acknowledgement was not lost: when it was, the row is DISPATCHED although the handler reports
      that the trip stays pending. */
  method CreateTrip(session: Session, km: Metric, t: TripId, pickup: Location)
    returns (reply: Trip, o: Outcome, ghost before: Tables)
    requires session.claim == None && session.row == None && Linked(session.Committed()) && t !in session.trips
    modifies session
    ensures session.claim == None && session.row == None && t in session.trips
    ensures reply == session.trips[t] <==> !o.AckLost?
    ensures o.AckLost? ==> session.trips[t] == Trip(Dispatched, Some(o.lost))
    ensures reply == if o.Assigned? then Trip(Dispatched, Some(o.id)) else Trip(Pending, None)
    ensures !o.TripNotPending?
    ensures o.Failed? || o.AckLost? <==> session.FaultWithin(old(session.executed), session.executed)
    ensures o.AckLost? ==> session.fault.value.applied
    ensures Answers(km, t, pickup, Some(t), old(session.Committed().(trips := session.trips[t := Trip(Pending, None)])),
                    o, before, session.Committed())
    ensures session.commits == old(session.commits) + Wrote(t, o)
  {
    reply := Trip(Pending, None);
    InsertKeepsLinked(session.Committed(), t);
    session.trips := session.trips[t := reply];
    session.own := Some(t);
    o, before := session.AssignTrip(km, t, pickup);
    if o.Assigned? {
      reply := Trip(Dispatched, Some(o.id));
    }
  }

  /** The in-memory branch of `CreateTrip`, which finds, claims and records in separate calls and
      undoes the claim when recording fails. It is only used sequentially. */
  class FallbackDispatcher {
    const fleet: Repository
    var trips: Trips

    constructor (fleet: Repository)
      ensures this.fleet == fleet && trips == map[]
    {
      this.fleet := fleet;
      trips := map[];
    }

    ghost function Contents(): Tables
      reads this, fleet
    {
      Tables(fleet.drivers, trips)
    }

    method UpdateDispatch(t: TripId, driver: DriverId, persists: bool) returns (ok: bool)
      modifies this
      ensures ok <==> persists && t in old(trips)
      ensures trips == if ok then old(trips)[t := Trip(Dispatched, Some(driver))] else old(trips)
    {
      ok := persists && t in trips;
      if ok {
        trips := trips[t := Trip(Dispatched, Some(driver))];
      }
    }

    /** `persists` says whether the store accepts the second write. The reply equals the stored row,
        and the tables stay linked on every branch. */
    method CreateTrip(km: Metric, t: TripId, pickup: Location, persists: bool) returns (reply: Trip)
      requires t !in trips && Linked(Contents())
      modifies this, fleet
      ensures Linked(Contents())
      ensures t in trips && reply == trips[t]
      ensures reply.status == Dispatched <==> persists && AvailableIds(old(fleet.drivers)) != {}
      ensures reply.status == Dispatched ==>
        && reply.driver.Some?
        && IsNearest(km, pickup, old(fleet.drivers), reply.driver.value)
        && Contents() == Assign(old(Contents()), t, reply.driver.value)
      ensures reply.status != Dispatched ==>
        reply == Trip(Pending, None) && Contents() == Tables(old(fleet.drivers), old(trips)[t := reply])
    {
      ghost var start := Contents();
      reply := Trip(Pending, None);
      trips := trips[t := reply];
      ghost var created := Contents();
      InsertKeepsLinked(start, t);
      var found := fleet.FindNearestAvailable(km, pickup);
      if found.Found? {
        assert found.id in AvailableIds(fleet.drivers);
        var ok := fleet.SetStatus(found.id, Busy);
        if ok {
          var saved := UpdateDispatch(t, found.id, persists);
          if saved {
            reply := Trip(Dispatched, Some(found.id));
            CommitKeepsLinked(created, t, found.id);
            assert Contents() == Assign(created, t, found.id);
          } else {
            var restored := fleet.SetStatus(found.id, Available);
            assert Contents() == created;
          }
        }
      }
    }
  }

  lemma InsertKeepsLinked(a: Tables, t: TripId)
    requires Linked(a) && t !in a.trips
    ensures Linked(a.(trips := a.trips[t := Trip(Pending, None)]))
  {
    var b := a.(trips := a.trips[t := Trip(Pending, None)]);
    forall d | d in b.drivers && b.drivers[d].status == Busy
      ensures HasTrip(b, d)
    {
      assert HasTrip(a, d);
      var u :| DispatchedTo(a, u, d);
      assert DispatchedTo(b, u, d);
    }
    forall u, v, d | DispatchedTo(b, u, d) && DispatchedTo(b, v, d)
      ensures u == v
    {
      assert DispatchedTo(a, u, d) && DispatchedTo(a, v, d);
    }
  }
}
