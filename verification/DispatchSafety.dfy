/** Safety of concurrent dispatch: what every step of every interleaving keeps. */
module DispatchSafety {
  import opened Fleet
  import opened DispatchProtocol

  /** The candidate list was read from an older snapshot, yet still covers every driver that is
      AVAILABLE now, because drivers are only ever claimed. */
  ghost predicate CandidatesCover(km: Metric, pickup: Location, drivers: Drivers, cands: seq<Candidate>)
  {
    && (forall i, j | 0 <= i < j < |cands| :: Before(cands[i], cands[j]))
    && (forall i | 0 <= i < |cands| ::
          && cands[i].id in drivers && drivers[cands[i].id].status != Offline
          && cands[i] == CandidateOf(km, pickup, drivers, cands[i].id))
    && (forall id | id in drivers && drivers[id].status == Available :: Lists(cands, id))
  }

  ghost predicate TxInv(km: Metric, tables: Tables, tx: Tx)
  {
    && (forall d | d in tx.kept :: d in BusyIds(tables.drivers))
    && (!InLoop(tx.pc) ==> tx.kept == {})
    && (InLoop(tx.pc) ==>
          && CandidatesCover(km, tx.pickup, tables.drivers, tx.cands)
          && |tx.cands| <= |tables.drivers|
          && tx.pc.next < |tx.cands|
          && (forall i | 0 <= i < tx.pc.next :: !IsAvailable(tables.drivers, tx.cands[i].id))
          && (HoldsClaim(tx) ==> IsAvailable(tables.drivers, tx.cands[tx.pc.next].id)))
    && (tx.pc.AwaitDriver? ==>
          && tx.pc.seen <= BusyIds(tables.drivers)
          && tx.kept <= tx.pc.seen
          && tx.cands[tx.pc.next].id !in tx.pc.seen)
    && (tx.pc.Written? ==> TripPending(tables, tx.trip))
    && (tx.pc.Done? && tx.pc.outcome.NoDrivers? ==> AvailableIds(tables.drivers) == {})
    && (Committed(tx) ==> DispatchedTo(tables, tx.trip, CommittedDriver(tx)))
  }

  function CommittedDriver(tx: Tx): DriverId
    requires Committed(tx)
  {
    if tx.pc.outcome.Assigned? then tx.pc.outcome.id else tx.pc.outcome.lost
  }

  /** What any two transactions owe each other: no driver is claimed twice, no trip is written or
      assigned twice, and statement snapshots are ordered by inclusion. */
  ghost predicate Compatible(a: Tx, b: Tx)
  {
    && (HoldsClaim(a) && HoldsClaim(b) ==> a.cands[a.pc.next].id != b.cands[b.pc.next].id)
    && (a.pc.Written? && b.pc.Written? ==> a.trip != b.trip)
    && (a.pc.AwaitDriver? && b.pc.AwaitDriver? ==> a.pc.seen <= b.pc.seen || b.pc.seen <= a.pc.seen)
    && (Committed(a) && Committed(b) ==> a.trip != b.trip)
  }

  ghost predicate Inv(km: Metric, s: State)
  {
    && Linked(s.tables)
    && (forall x | 0 <= x < |s.txs| :: TxInv(km, s.tables, s.txs[x]))
    && (forall x, y | 0 <= x < |s.txs| && 0 <= y < |s.txs| && x != y :: Compatible(s.txs[x], s.txs[y]))
  }

  lemma InitInv(km: Metric, s: State)
    requires Init(s)
    ensures Inv(km, s)
  {
  }

  /** Replacing one transaction keeps the invariant if the new one fits the tables and the others. */
  lemma UpdateTx(km: Metric, s: State, x: nat, tx: Tx)
    requires Inv(km, s) && x < |s.txs|
    requires TxInv(km, s.tables, tx)
    requires forall y | 0 <= y < |s.txs| && y != x :: Compatible(tx, s.txs[y])
    ensures Inv(km, s.(txs := s.txs[x := tx]))
  {
  }

  lemma ContinueKeepsTx(km: Metric, tables: Tables, tx: Tx)
    requires InLoop(tx.pc) && tx.pc.next < |tx.cands| <= |tables.drivers|
    requires CandidatesCover(km, tx.pickup, tables.drivers, tx.cands)
    requires forall i | 0 <= i <= tx.pc.next :: !IsAvailable(tables.drivers, tx.cands[i].id)
    requires forall d | d in tx.kept :: d in BusyIds(tables.drivers)
    ensures TxInv(km, tables, Continue(tx, tx.pc.next + 1))
  {
    assert forall d | d in AvailableIds(tables.drivers) :: Lists(tx.cands, d);
  }

  lemma SnapshotKeepsTx(km: Metric, tables: Tables, tx: Tx, cands: seq<Candidate>)
    requires tx.pc.Idle? && tx.kept == {} && IsRanking(km, tx.pickup, tables.drivers, cands)
    ensures TxInv(km, tables, Advance(tables, tx, Snapshot(cands)))
  {
    RankingLength(km, tx.pickup, tables.drivers, cands);
    RankingHeadIsNearest(km, tx.pickup, tables.drivers, cands);
  }

  lemma DriverStepKeepsTx(km: Metric, tables: Tables, tx: Tx, a: Action)
    requires TxInv(km, tables, tx)
    requires (a.Send? && tx.pc.Next?) || (a.Lock? && tx.pc.AwaitDriver?)
    ensures TxInv(km, tables, Advance(tables, tx, a))
  {
    var d := tx.cands[tx.pc.next].id;
    if !IsAvailable(tables.drivers, d) {
      assert tables.drivers[d].status == Busy;
      ContinueKeepsTx(km, tables, if a.Lock? && a.keep then tx.(kept := tx.kept + {d}) else tx);
    }
  }

  /** Steps that write no committed row. */
  lemma LocalStepKeepsTx(km: Metric, s: State, x: nat, a: Action)
    requires Inv(km, s) && Enabled(km, s, x, a) && !a.Commit? && !a.LoseAck?
    ensures TxInv(km, s.tables, Advance(s.tables, s.txs[x], a))
  {
    var tx := s.txs[x];
    assert TxInv(km, s.tables, tx);
    if a.Snapshot? {
      SnapshotKeepsTx(km, s.tables, tx, a.cands);
    } else if a.Send? || a.Lock? {
      DriverStepKeepsTx(km, s.tables, tx, a);
    }
  }

  lemma LocalStepKeepsPairs(km: Metric, s: State, x: nat, a: Action, y: nat)
    requires Inv(km, s) && Enabled(km, s, x, a) && !a.Commit? && !a.LoseAck?
    requires y < |s.txs| && y != x
    ensures Compatible(Advance(s.tables, s.txs[x], a), s.txs[y])
  {
    var tx := s.txs[x];
    assert Compatible(tx, s.txs[y]);
    assert TxInv(km, s.tables, s.txs[y]);
    if a.Lock? || a.LockTrip? {
      assert !WaitsFor(s, x, y);
    }
  }

  /** A commit leaves every other transaction's view intact. */
  lemma CommitKeepsOther(km: Metric, tables: Tables, tx: Tx, other: Tx)
    requires TxInv(km, tables, tx) && TxInv(km, tables, other) && tx.pc.Written?
    requires Compatible(tx, other)
    ensures TxInv(km, Assign(tables, tx.trip, tx.cands[tx.pc.next].id), other)
  {
    var d := tx.cands[tx.pc.next].id;
    var after := Assign(tables, tx.trip, d);
    assert after.drivers.Keys == tables.drivers.Keys;
    assert |after.drivers| == |after.drivers.Keys| == |tables.drivers|;
    assert BusyIds(tables.drivers) <= BusyIds(after.drivers);
    assert AvailableIds(after.drivers) <= AvailableIds(tables.drivers);
  }

  /** A commit keeps the correspondence: it adds one trip and one driver that were both free. */
  lemma CommitKeepsLinked(tables: Tables, t: TripId, d: DriverId)
    requires Linked(tables) && IsAvailable(tables.drivers, d) && TripPending(tables, t)
    ensures Linked(Assign(tables, t, d))
  {
    var after := Assign(tables, t, d);
    assert DispatchedTo(after, t, d);
    forall e | e in after.drivers && after.drivers[e].status == Busy
      ensures HasTrip(after, e)
    {
      if e != d {
        assert HasTrip(tables, e);
        var u :| DispatchedTo(tables, u, e);
        assert DispatchedTo(after, u, e);
      }
    }
    forall u, v, e | DispatchedTo(after, u, e) && DispatchedTo(after, v, e)
      ensures u == v
    {
      if u != t && v != t {
        assert DispatchedTo(tables, u, e) && DispatchedTo(tables, v, e);
      }
    }
  }

  lemma CommitKeepsInv(km: Metric, s: State, x: nat, a: Action, s': State)
    requires Inv(km, s) && (a.Commit? || a.LoseAck?) && Step(km, s, Act(x, a), s')
    ensures Inv(km, s')
  {
    var tx := s.txs[x];
    assert TxInv(km, s.tables, tx);
    var d := tx.cands[tx.pc.next].id;
    CommitKeepsLinked(s.tables, tx.trip, d);
    forall y | 0 <= y < |s'.txs| ensures TxInv(km, s'.tables, s'.txs[y]) {
      if y != x {
        CommitKeepsOther(km, s.tables, tx, s.txs[y]);
      }
    }
    forall y | 0 <= y < |s'.txs| && y != x
      ensures Compatible(s'.txs[x], s'.txs[y]) && Compatible(s'.txs[y], s'.txs[x])
    {
      assert TxInv(km, s.tables, s.txs[y]);
    }
  }

  lemma InsertTripKeepsInv(km: Metric, s: State, t: TripId, s': State)
    requires Inv(km, s) && Step(km, s, InsertTrip(t), s')
    ensures Inv(km, s')
  {
    forall d | d in s'.tables.drivers && s'.tables.drivers[d].status == Busy
      ensures HasTrip(s'.tables, d)
    {
      assert HasTrip(s.tables, d);
      var u :| DispatchedTo(s.tables, u, d);
      assert DispatchedTo(s'.tables, u, d);
    }
    forall u, v, d | DispatchedTo(s'.tables, u, d) && DispatchedTo(s'.tables, v, d)
      ensures u == v
    {
      assert DispatchedTo(s.tables, u, d) && DispatchedTo(s.tables, v, d);
    }
    forall y | 0 <= y < |s'.txs| ensures TxInv(km, s'.tables, s'.txs[y]) {
      assert TxInv(km, s.tables, s.txs[y]);
    }
  }

  lemma StepKeepsInv(km: Metric, s: State, e: Event, s': State)
    requires Inv(km, s) && Step(km, s, e, s')
    ensures Inv(km, s')
  {
    match e {
      case InsertTrip(t) => InsertTripKeepsInv(km, s, t, s');
      case Act(x, a) =>
        if a.Commit? || a.LoseAck? {
          CommitKeepsInv(km, s, x, a, s');
        } else {
          LocalStepKeepsTx(km, s, x, a);
          forall y | 0 <= y < |s.txs| && y != x
            ensures Compatible(Advance(s.tables, s.txs[x], a), s.txs[y])
          {
            LocalStepKeepsPairs(km, s, x, a, y);
          }
          UpdateTx(km, s, x, Advance(s.tables, s.txs[x], a));
          assert s' == s.(txs := s.txs[x := Advance(s.tables, s.txs[x], a)]);
        }
    }
  }

  lemma {:induction false} RunKeepsInv(km: Metric, states: seq<State>, events: seq<Event>, i: nat)
    requires IsRun(km, states, events) && Inv(km, states[0]) && i < |states|
    ensures Inv(km, states[i])
  {
    if i > 0 {
      RunKeepsInv(km, states, events, i - 1);
      assert StepAt(km, states, events, i - 1);
      StepKeepsInv(km, states[i - 1], events[i - 1], states[i]);
    }
  }

  /** In every committed state of every interleaving, `driver_id` is a one-to-one correspondence
      between DISPATCHED trips and BUSY drivers. */
  lemma NoDoubleAssignment(km: Metric, states: seq<State>, events: seq<Event>, i: nat)
    requires IsRun(km, states, events) && Init(states[0]) && i < |states|
    ensures Linked(states[i].tables)
  {
    InitInv(km, states[0]);
    RunKeepsInv(km, states, events, i);
  }

  /** The driver committed to a trip is the nearest by (distance, id) among all drivers AVAILABLE
      just before that commit, and the distance returned is its distance. */
  lemma CommitTakesNearest(km: Metric, states: seq<State>, events: seq<Event>, i: nat, x: nat)
    requires IsRun(km, states, events) && Init(states[0])
    requires i < |events| && (events[i] == Act(x, Commit) || events[i] == Act(x, LoseAck))
    requires StepAt(km, states, events, i)
    ensures Committed(states[i + 1].txs[x])
    ensures IsNearest(km, states[i].txs[x].pickup, states[i].tables.drivers, CommittedDriver(states[i + 1].txs[x]))
    ensures events[i].action.Commit? ==>
      var o := states[i + 1].txs[x].pc.outcome;
      o.km == km(states[i].txs[x].pickup, states[i].tables.drivers[o.id].at)
  {
    InitInv(km, states[0]);
    RunKeepsInv(km, states, events, i);
    var s := states[i];
    assert StepAt(km, states, events, i);
    var tx := s.txs[x];
    assert TxInv(km, s.tables, tx);
    var n := tx.pc.next;
    forall other | other in s.tables.drivers && other != tx.cands[n].id && s.tables.drivers[other].status == Available
      ensures Before(CandidateOf(km, tx.pickup, s.tables.drivers, tx.cands[n].id), CandidateOf(km, tx.pickup, s.tables.drivers, other))
    {
      assert Lists(tx.cands, other);
      var j :| 0 <= j < |tx.cands| && tx.cands[j].id == other;
      assert j > n;
    }
  }

  /** `ErrNoAvailableDrivers` is returned only when no driver is AVAILABLE in the committed state,
      and that stays so. */
  lemma NoDriversMeansNone(km: Metric, states: seq<State>, events: seq<Event>, i: nat, x: nat)
    requires IsRun(km, states, events) && Init(states[0]) && i < |states|
    requires x < |states[i].txs| && states[i].txs[x].pc == Done(NoDrivers)
    ensures AvailableIds(states[i].tables.drivers) == {}
  {
    InitInv(km, states[0]);
    RunKeepsInv(km, states, events, i);
    assert TxInv(km, states[i].tables, states[i].txs[x]);
  }

  /** The transactions and the trips they are for stay the same over a run. */
  lemma {:induction false} RequestsStay(km: Metric, states: seq<State>, events: seq<Event>, i: nat)
    requires IsRun(km, states, events) && i < |states|
    ensures |states[i].txs| == |states[0].txs|
    ensures forall x | 0 <= x < |states[0].txs| :: states[i].txs[x].trip == states[0].txs[x].trip
  {
    if i > 0 {
      RequestsStay(km, states, events, i - 1);
      assert StepAt(km, states, events, i - 1);
    }
  }

  /** Every outcome has its cause: a transaction ends in an infrastructure error only by one of its own
      statements failing, is refused only if its trip is not PENDING at that moment, and gives up only
      when no driver is AVAILABLE. */
  lemma OutcomeHasCause(km: Metric, states: seq<State>, events: seq<Event>, i: nat, x: nat)
    requires IsRun(km, states, events) && Init(states[0]) && i < |events| && StepAt(km, states, events, i)
    requires x < |states[i].txs| && x < |states[i + 1].txs|
    requires !states[i].txs[x].pc.Done? && states[i + 1].txs[x].pc.Done?
    ensures events[i].Act? && events[i].x == x
    ensures var a := events[i].action;
      match states[i + 1].txs[x].pc.outcome
      case Failed => a.Fail?
      case AckLost(_) => a.LoseAck?
      case Assigned(_, _) => a.Commit?
      case TripNotPending => (a.SendTrip? || a.LockTrip?) && !TripPending(states[i].tables, states[i].txs[x].trip)
      case NoDrivers => (a.Snapshot? || a.Send? || a.Lock?) && AvailableIds(states[i].tables.drivers) == {}
  {
    InitInv(km, states[0]);
    RunKeepsInv(km, states, events, i);
    RunKeepsInv(km, states, events, i + 1);
    assert TxInv(km, states[i].tables, states[i].txs[x]) && TxInv(km, states[i + 1].tables, states[i + 1].txs[x]);
  }

  /** A finished transaction never moves again. */
  lemma {:induction false} DoneStays(km: Metric, states: seq<State>, events: seq<Event>, i: nat, j: nat, x: nat)
    requires IsRun(km, states, events) && i <= j < |states|
    requires x < |states[i].txs| && states[i].txs[x].pc.Done?
    ensures x < |states[j].txs| && states[j].txs[x] == states[i].txs[x]
    decreases j - i
  {
    if i < j {
      DoneStays(km, states, events, i, j - 1, x);
      assert StepAt(km, states, events, j - 1);
    }
  }

  /** A transaction that did not commit changed nothing: not one of its steps touched a table,
      wherever it failed. One that did commit changed exactly its trip and its driver, in one step. */
  lemma AllOrNothing(km: Metric, states: seq<State>, events: seq<Event>, i: nat, x: nat, a: Action)
    requires IsRun(km, states, events)
    requires i < |events| && events[i] == Act(x, a) && StepAt(km, states, events, i)
    requires x < |states[0].txs|
    ensures x < |states[|states| - 1].txs|
    ensures !Committed(states[|states| - 1].txs[x]) ==> states[i + 1].tables == states[i].tables
    ensures states[i + 1].tables != states[i].tables ==>
      && Committed(states[|states| - 1].txs[x])
      && var d := CommittedDriver(states[|states| - 1].txs[x]);
         d in states[i].tables.drivers
         && states[i + 1].tables == Assign(states[i].tables, states[i].txs[x].trip, d)
  {
    RequestsStay(km, states, events, |states| - 1);
    assert StepAt(km, states, events, i);
    if a.Commit? || a.LoseAck? {
      DoneStays(km, states, events, i + 1, |states| - 1, x);
    }
  }
}
