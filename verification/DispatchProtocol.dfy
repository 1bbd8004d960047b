/** Concurrent `AssignTrip` transactions as a state machine
    (backend/internal/dispatch/postgres_repository.go, lines 176-256).

    A state holds the committed tables and every transaction's local progress. PostgreSQL runs the
    transactions at READ COMMITTED:
      - each statement sees the rows committed when it starts;
      - an UPDATE whose row is locked waits for the lock and then re-checks its WHERE clause on the
        row as committed by then;
      - an uncommitted write is visible to its own transaction only, so it is represented by the
        lock its transaction holds, and a rollback is the release of that lock.

    A transaction that waited for a driver row and then fails the re-check may go on holding the
    lock on that row. The model leaves this open (`keep`): every result holds for both behaviours. */
module DispatchProtocol {
  import opened Common
  import opened Fleet

  type TripId = string
  datatype TripStatus = Pending | Dispatched | InProgress | Completed | Cancelled
  datatype Trip = Trip(status: TripStatus, driver: Option<DriverId>)
  type Trips = map<TripId, Trip>
  datatype Tables = Tables(drivers: Drivers, trips: Trips)

  datatype Outcome =
    | Assigned(id: DriverId, km: real)
    | NoDrivers        // ErrNoAvailableDrivers
    | TripNotPending   // the trip UPDATE matched no row
    | Failed           // an infrastructure error; rolled back
    | AckLost(lost: DriverId) // COMMIT took effect but its reply was lost: the caller sees an error

  datatype Pc =
    | Idle
    | Next(next: nat)                                // about to claim cands[next]
    | AwaitDriver(next: nat, seen: set<DriverId>)    // the UPDATE runs; its snapshot showed `seen` BUSY
    | Claimed(next: nat)                             // uncommitted BUSY on cands[next]
    | AwaitTrip(next: nat)                           // the trip UPDATE runs
    | Written(next: nat)                             // both rows written, about to COMMIT
    | Done(outcome: Outcome)

  datatype Tx = Tx(trip: TripId, pickup: Location, cands: seq<Candidate>, kept: set<DriverId>, pc: Pc)

  datatype State = State(tables: Tables, txs: seq<Tx>)

  datatype Action = Snapshot(cands: seq<Candidate>) | Send | Lock(keep: bool) | SendTrip | LockTrip
                  | Commit | LoseAck | Fail

  /** Besides the transactions, `CreateTrip` inserts new PENDING trips in its own autocommit. */
  datatype Event = Act(x: nat, action: Action) | InsertTrip(t: TripId)

  function BusyIds(drivers: Drivers): set<DriverId>
  {
    set id | id in drivers && drivers[id].status == Busy
  }

  predicate InLoop(pc: Pc)
  {
    !pc.Idle? && !pc.Done?
  }

  predicate HoldsClaim(tx: Tx)
  {
    (tx.pc.Claimed? || tx.pc.AwaitTrip? || tx.pc.Written?) && tx.pc.next < |tx.cands|
  }

  predicate HoldsDriver(tx: Tx, id: DriverId)
  {
    (HoldsClaim(tx) && tx.cands[tx.pc.next].id == id) || id in tx.kept
  }

  predicate Committed(tx: Tx)
  {
    tx.pc.Done? && (tx.pc.outcome.Assigned? || tx.pc.outcome.AckLost?)
  }

  /** Transaction `x` waits for a row lock that transaction `y` holds. */
  predicate WaitsFor(s: State, x: nat, y: nat)
  {
    && x < |s.txs| && y < |s.txs| && x != y
    && (|| (&& s.txs[x].pc.AwaitDriver? && s.txs[x].pc.next < |s.txs[x].cands|
            && HoldsDriver(s.txs[y], s.txs[x].cands[s.txs[x].pc.next].id))
        || (&& s.txs[x].pc.AwaitTrip? && s.txs[y].pc.Written? && s.txs[x].trip == s.txs[y].trip))
  }

  predicate Blocked(s: State, x: nat)
  {
    exists y | 0 <= y < |s.txs| :: WaitsFor(s, x, y)
  }

  ghost predicate Enabled(km: Metric, s: State, x: nat, a: Action)
  {
    && x < |s.txs|
    && var tx := s.txs[x];
    match a {
      case Snapshot(cands) => tx.pc.Idle? && IsRanking(km, tx.pickup, s.tables.drivers, cands)
      case Send => tx.pc.Next? && tx.pc.next < |tx.cands|
      case Lock(_) => tx.pc.AwaitDriver? && tx.pc.next < |tx.cands| && !Blocked(s, x)
      case SendTrip => tx.pc.Claimed? && tx.pc.next < |tx.cands|
      case LockTrip => tx.pc.AwaitTrip? && tx.pc.next < |tx.cands| && !Blocked(s, x)
      case Commit => tx.pc.Written? && tx.pc.next < |tx.cands|
      case LoseAck => tx.pc.Written? && tx.pc.next < |tx.cands|
      case Fail => !tx.pc.Done?
    }
  }

  /** The deferred rollback (or the commit) releases every lock. */
  function Finish(tx: Tx, o: Outcome): Tx
  {
    tx.(kept := {}, pc := Done(o))
  }

  /** `continue` in the candidate loop; past the last candidate there is no driver. */
  function Continue(tx: Tx, n: nat): Tx
  {
    if n >= |tx.cands| then Finish(tx, NoDrivers) else tx.(pc := Next(n))
  }

  predicate TripPending(tables: Tables, t: TripId)
  {
    t in tables.trips && tables.trips[t].status == Pending
  }

  function Assign(tables: Tables, t: TripId, d: DriverId): Tables
    requires d in tables.drivers
  {
    Tables(tables.drivers[d := tables.drivers[d].(status := Busy)],
           tables.trips[t := Trip(Dispatched, Some(d))])
  }

  /** What the transaction's next step makes of its local state. */
  function Advance(tables: Tables, tx: Tx, a: Action): Tx
    requires InLoop(tx.pc) ==> tx.pc.next < |tx.cands|
  {
    match a
    case Snapshot(cands) =>
      if cands == [] then Finish(tx, NoDrivers) else tx.(cands := cands, pc := Next(0))
    case Send =>
      if !tx.pc.Next? then tx
      else if IsAvailable(tables.drivers, tx.cands[tx.pc.next].id) then
        tx.(pc := AwaitDriver(tx.pc.next, BusyIds(tables.drivers)))
      else Continue(tx, tx.pc.next + 1)
    case Lock(keep) =>
      if !tx.pc.AwaitDriver? then tx
      else if IsAvailable(tables.drivers, tx.cands[tx.pc.next].id) then tx.(pc := Claimed(tx.pc.next))
      else
        var kept := if keep then tx.kept + {tx.cands[tx.pc.next].id} else tx.kept;
        Continue(tx.(kept := kept), tx.pc.next + 1)
    case SendTrip =>
      if !tx.pc.Claimed? then tx
      else if TripPending(tables, tx.trip) then tx.(pc := AwaitTrip(tx.pc.next))
      else Finish(tx, TripNotPending)
    case LockTrip =>
      if !tx.pc.AwaitTrip? then tx
      else if TripPending(tables, tx.trip) then tx.(pc := Written(tx.pc.next))
      else Finish(tx, TripNotPending)
    case Commit =>
      if !tx.pc.Written? then tx else Finish(tx, Assigned(tx.cands[tx.pc.next].id, tx.cands[tx.pc.next].km))
    case LoseAck =>
      if !tx.pc.Written? then tx else Finish(tx, AckLost(tx.cands[tx.pc.next].id))
    case Fail => Finish(tx, Failed)
  }

  ghost predicate Step(km: Metric, s: State, e: Event, s': State)
  {
    match e {
      case InsertTrip(t) =>
        && t !in s.tables.trips
        && s' == s.(tables := s.tables.(trips := s.tables.trips[t := Trip(Pending, None)]))
      case Act(x, a) =>
        && Enabled(km, s, x, a)
        && var tx := s.txs[x];
        && (InLoop(tx.pc) ==> tx.pc.next < |tx.cands|)
        && s'.txs == s.txs[x := Advance(s.tables, tx, a)]
        && if a.Commit? || a.LoseAck? then
             && tx.cands[tx.pc.next].id in s.tables.drivers
             && s'.tables == Assign(s.tables, tx.trip, tx.cands[tx.pc.next].id)
           else s'.tables == s.tables
    }
  }

  /** Any interleaving: `states[i]` goes to `states[i+1]` by `events[i]`. */
  ghost predicate IsRun(km: Metric, states: seq<State>, events: seq<Event>)
  {
    && |states| == |events| + 1
    && forall i | 0 <= i < |events| :: StepAt(km, states, events, i)
  }

  ghost predicate StepAt(km: Metric, states: seq<State>, events: seq<Event>, i: nat)
    requires i < |events| < |states|
  {
    Step(km, states[i], events[i], states[i + 1])
  }

  predicate DispatchedTo(tables: Tables, t: TripId, d: DriverId)
  {
    t in tables.trips && tables.trips[t].status == Dispatched && tables.trips[t].driver == Some(d)
  }

  ghost predicate HasTrip(tables: Tables, d: DriverId)
  {
    exists t :: DispatchedTo(tables, t, d)
  }

  /** `driver_id` is a one-to-one correspondence between DISPATCHED trips and BUSY drivers. */
  ghost predicate Linked(tables: Tables)
  {
    && (forall t | t in tables.trips && tables.trips[t].status == Dispatched ::
          && tables.trips[t].driver.Some?
          && tables.trips[t].driver.value in tables.drivers
          && tables.drivers[tables.trips[t].driver.value].status == Busy)
    && (forall d | d in tables.drivers && tables.drivers[d].status == Busy :: HasTrip(tables, d))
    && (forall t, u, d | DispatchedTo(tables, t, d) && DispatchedTo(tables, u, d) :: t == u)
  }

  /** The requests are for distinct trips, as those of `CreateTrip` are. */
  predicate DistinctTrips(txs: seq<Tx>)
  {
    forall x, y | 0 <= x < |txs| && 0 <= y < |txs| && x != y :: txs[x].trip != txs[y].trip
  }

  /** No transaction has begun. The tables only have to be linked, so this covers a fresh
      all-AVAILABLE fleet as well as a restart over earlier assignments. */
  ghost predicate Init(s: State)
  {
    && Linked(s.tables)
    && forall x | 0 <= x < |s.txs| :: s.txs[x].pc.Idle? && s.txs[x].cands == [] && s.txs[x].kept == {}
  }

  /** A freshly seeded fleet and trips that were never dispatched form such a start. */
  lemma FreshFleetIsLinked(tables: Tables)
    requires forall d | d in tables.drivers :: tables.drivers[d].status == Available
    requires forall t | t in tables.trips :: tables.trips[t].status != Dispatched
    ensures Linked(tables)
  {
  }
}
