/** How many trips concurrent dispatch assigns. */
module DispatchCounting {
  import opened Fleet
  import opened DispatchProtocol
  import opened DispatchSafety

  function CommittedTxs(txs: seq<Tx>): set<nat>
  {
    set x | 0 <= x < |txs| && Committed(txs[x])
  }

  /** Each commit turns exactly one AVAILABLE driver BUSY; nothing else changes either count. */
  lemma StepConserves(km: Metric, s: State, e: Event, s': State)
    requires Inv(km, s) && Step(km, s, e, s')
    ensures |AvailableIds(s'.tables.drivers)| + |CommittedTxs(s'.txs)|
         == |AvailableIds(s.tables.drivers)| + |CommittedTxs(s.txs)|
  {
    if e.Act? {
      var tx := s.txs[e.x];
      assert TxInv(km, s.tables, tx);
      CommittedAfter(s.txs, e.x, s'.txs[e.x]);
      if e.action.Commit? || e.action.LoseAck? {
        AvailableAfter(s.tables, tx.trip, tx.cands[tx.pc.next].id);
      }
    }
  }

  lemma AvailableAfter(tables: Tables, t: TripId, d: DriverId)
    requires IsAvailable(tables.drivers, d)
    ensures |AvailableIds(Assign(tables, t, d).drivers)| == |AvailableIds(tables.drivers)| - 1
  {
    assert d in AvailableIds(tables.drivers);
    assert AvailableIds(Assign(tables, t, d).drivers) == AvailableIds(tables.drivers) - {d};
  }

  lemma CommittedAfter(txs: seq<Tx>, x: nat, tx: Tx)
    requires x < |txs| && !Committed(txs[x])
    ensures |CommittedTxs(txs[x := tx])| == |CommittedTxs(txs)| + (if Committed(tx) then 1 else 0)
  {
    assert x !in CommittedTxs(txs);
    assert CommittedTxs(txs[x := tx]) == CommittedTxs(txs) + if Committed(tx) then {x} else {};
  }

  lemma {:induction false} RunConserves(km: Metric, states: seq<State>, events: seq<Event>, i: nat)
    requires IsRun(km, states, events) && Init(states[0]) && i < |states|
    ensures |AvailableIds(states[i].tables.drivers)| + |CommittedTxs(states[i].txs)|
         == |AvailableIds(states[0].tables.drivers)|
  {
    if i == 0 {
      assert CommittedTxs(states[0].txs) == {};
    } else {
      RunConserves(km, states, events, i - 1);
      InitInv(km, states[0]);
      RunKeepsInv(km, states, events, i - 1);
      assert StepAt(km, states, events, i - 1);
      StepConserves(km, states[i - 1], events[i - 1], states[i]);
    }
  }

  /** Each trip has been inserted, and is PENDING, by the time its transaction takes its snapshot;
      `CreateTrip` inserts it just before. */
  ghost predicate PendingAtSnapshot(states: seq<State>, events: seq<Event>, i: nat)
    requires i < |events| < |states|
  {
    events[i].Act? && events[i].action.Snapshot? && events[i].x < |states[i].txs| ==>
      TripPending(states[i].tables, states[i].txs[events[i].x].trip)
  }

  /** A request that has started and not committed finds its trip still PENDING. */
  predicate TripsUntouched(s: State)
  {
    forall x | 0 <= x < |s.txs| ::
      && s.txs[x].pc != Done(TripNotPending)
      && (!s.txs[x].pc.Idle? && s.txs[x].pc != Done(Failed) && !Committed(s.txs[x]) ==> TripPending(s.tables, s.txs[x].trip))
  }

  lemma StepKeepsTripsUntouched(km: Metric, s: State, e: Event, s': State)
    requires Step(km, s, e, s') && DistinctTrips(s.txs) && TripsUntouched(s)
    requires e.Act? && e.action.Snapshot? ==> TripPending(s.tables, s.txs[e.x].trip)
    ensures DistinctTrips(s'.txs) && TripsUntouched(s')
  {
  }

  /** With distinct trips nobody else touches the trip of a started request. */
  lemma {:induction false} RunKeepsTripsUntouched(km: Metric, states: seq<State>, events: seq<Event>, i: nat)
    requires IsRun(km, states, events) && Init(states[0]) && i < |states|
    requires DistinctTrips(states[0].txs)
    requires forall k | 0 <= k < i :: PendingAtSnapshot(states, events, k)
    ensures DistinctTrips(states[i].txs) && TripsUntouched(states[i])
  {
    if i > 0 {
      RunKeepsTripsUntouched(km, states, events, i - 1);
      assert StepAt(km, states, events, i - 1) && PendingAtSnapshot(states, events, i - 1);
      StepKeepsTripsUntouched(km, states[i - 1], events[i - 1], states[i]);
    }
  }

  function Indices(n: nat): (r: set<nat>)
    ensures |r| == n && forall x: nat :: x in r <==> x < n
  {
    if n == 0 then {} else Indices(n - 1) + {n - 1}
  }

  lemma {:induction false} ImageSize(txs: seq<Tx>, xs: set<nat>)
    requires DistinctTrips(txs) && forall x | x in xs :: x < |txs|
    ensures |set x | x in xs :: txs[x].trip| == |xs|
  {
    var image := set x | x in xs :: txs[x].trip;
    if xs == {} {
      assert image == {};
    } else {
      var x :| x in xs;
      ImageSize(txs, xs - {x});
      var rest := set y | y in xs - {x} :: txs[y].trip;
      assert image == rest + {txs[x].trip};
    }
  }

  function RequestedTrips(txs: seq<Tx>): set<TripId>
  {
    set x | 0 <= x < |txs| :: txs[x].trip
  }

  function DispatchedAmong(tables: Tables, requested: set<TripId>): set<TripId>
  {
    set t | t in requested && t in tables.trips && tables.trips[t].status == Dispatched
  }

  function Min(a: nat, b: nat): nat
  {
    if a <= b then a else b
  }

  /** With k distinct trips, each PENDING when its transaction starts, and n AVAILABLE drivers, once
      every assignment has ended without an infrastructure error, exactly min(k, n) of the trips are
      DISPATCHED. */
  lemma ExactlyMinAssigned(km: Metric, states: seq<State>, events: seq<Event>)
    requires IsRun(km, states, events) && Init(states[0])
    requires DistinctTrips(states[0].txs)
    requires forall k | 0 <= k < |events| :: PendingAtSnapshot(states, events, k)
    requires forall x | 0 <= x < |states[|events|].txs| ::
      var pc := states[|events|].txs[x].pc;
      pc.Done? && !pc.outcome.Failed? && !pc.outcome.AckLost?
    ensures |DispatchedAmong(states[|events|].tables, RequestedTrips(states[0].txs))|
         == Min(|states[0].txs|, |AvailableIds(states[0].tables.drivers)|)
  {
    var n := |events|;
    var last := states[n];
    RunConserves(km, states, events, n);
    RequestsStay(km, states, events, n);
    RunKeepsTripsUntouched(km, states, events, n);
    InitInv(km, states[0]);
    RunKeepsInv(km, states, events, n);
    var winners := CommittedTxs(last.txs);
    WinnersAreDispatched(km, states[0], last);
    ImageSize(last.txs, winners);
    var all := Indices(|last.txs|);
    SubsetSize(winners, all);
    if winners != all {
      var x :| x in all && x !in winners;
      assert TxInv(km, last.tables, last.txs[x]);
      assert last.txs[x].pc == Done(NoDrivers);
    }
  }

  lemma WinnersAreDispatched(km: Metric, first: State, last: State)
    requires Inv(km, last) && DistinctTrips(last.txs) && TripsUntouched(last)
    requires forall x | 0 <= x < |last.txs| :: last.txs[x].pc.Done? && last.txs[x].pc != Done(Failed)
    requires |last.txs| == |first.txs|
    requires forall x | 0 <= x < |first.txs| :: last.txs[x].trip == first.txs[x].trip
    ensures DispatchedAmong(last.tables, RequestedTrips(first.txs))
         == set x | x in CommittedTxs(last.txs) :: last.txs[x].trip
  {
    forall x | 0 <= x < |last.txs|
      ensures x in CommittedTxs(last.txs) <==> last.txs[x].trip in DispatchedAmong(last.tables, RequestedTrips(first.txs))
    {
      assert TxInv(km, last.tables, last.txs[x]);
      assert first.txs[x].trip in RequestedTrips(first.txs);
    }
  }
}
