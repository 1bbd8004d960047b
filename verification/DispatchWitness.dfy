/** A concrete run in which a transaction that waits for one driver row holds the lock of another.

    Two drivers, three trips. The first transaction takes driver "a" while the second waits for it;
    the third claims driver "b"; the second loses its re-check on "a", keeps that row's lock, and
    then waits for "b". */
module DispatchWitness {
  import opened Common
  import opened Fleet
  import opened DispatchProtocol

  const Pickup := Location(0.0, 0.0)
  const Both := [Candidate("a", 1.0), Candidate("b", 2.0)]
  const OnlyB := [Candidate("b", 2.0)]
  const Start := Tables(
    map["a" := Driver(Location(1.0, 0.0), Available), "b" := Driver(Location(2.0, 0.0), Available)],
    map["s" := Trip(Pending, None), "t" := Trip(Pending, None), "u" := Trip(Pending, None)])
  const After := Assign(Start, "s", "a")

  function Km(pickup: Location, at: Location): real
  {
    at.lat - pickup.lat
  }

  function First(pc: Pc): Tx
  {
    Tx("s", Pickup, if pc.Idle? then [] else Both, {}, pc)
  }

  function Second(kept: set<DriverId>, pc: Pc): Tx
  {
    Tx("t", Pickup, if pc.Idle? then [] else Both, kept, pc)
  }

  function Third(pc: Pc): Tx
  {
    Tx("u", Pickup, if pc.Idle? then [] else OnlyB, {}, pc)
  }

  function StateAt(k: nat): State
  {
    State(
      if k < 8 then Start else After,
      [First(match k
             case 0 => Idle
             case 1 => Next(0)
             case 2 => AwaitDriver(0, {})
             case 3 => Claimed(0)
             case 4 => Claimed(0)
             case 5 => Claimed(0)
             case 6 => AwaitTrip(0)
             case 7 => Written(0)
             case _ => Done(Assigned("a", 1.0))),
       Second(if k < 12 then {} else {"a"},
              if k < 4 then Idle
              else if k == 4 then Next(0)
              else if k < 12 then AwaitDriver(0, {})
              else if k == 12 then Next(1)
              else AwaitDriver(1, {"a"})),
       Third(if k < 9 then Idle else if k == 9 then Next(0) else if k == 10 then AwaitDriver(0, {"a"}) else Claimed(0))])
  }

  function EventAt(k: nat): Event
  {
    match k
    case 0 => Act(0, Snapshot(Both))
    case 1 => Act(0, Send)
    case 2 => Act(0, Lock(false))
    case 3 => Act(1, Snapshot(Both))
    case 4 => Act(1, Send)
    case 5 => Act(0, SendTrip)
    case 6 => Act(0, LockTrip)
    case 7 => Act(0, Commit)
    case 8 => Act(2, Snapshot(OnlyB))
    case 9 => Act(2, Send)
    case 10 => Act(2, Lock(false))
    case 11 => Act(1, Lock(true))
    case _ => Act(1, Send)
  }

  lemma Rankings()
    ensures IsRanking(Km, Pickup, Start.drivers, Both)
    ensures IsRanking(Km, Pickup, After.drivers, OnlyB)
    ensures "a" != "b" && BusyIds(Start.drivers) == {} && BusyIds(After.drivers) == {"a"}
  {
    assert "a"[0] != "b"[0];
    assert Both[0].id == "a" && Both[1].id == "b" && OnlyB[0].id == "b";
    forall id | id in Start.drivers ensures Lists(Both, id) {
      assert id == Both[0].id || id == Both[1].id;
    }
    forall id | IsAvailable(After.drivers, id) ensures Lists(OnlyB, id) {
      assert id == OnlyB[0].id;
    }
  }

  /** A step that commits nothing, taken by a transaction nobody blocks. */
  lemma LocalStep(s: State, x: nat, a: Action, s': State)
    requires x < |s.txs| && Enabled(Km, s, x, a) && !a.Commit? && !a.LoseAck?
    requires InLoop(s.txs[x].pc) ==> s.txs[x].pc.next < |s.txs[x].cands|
    requires s' == s.(txs := s.txs[x := Advance(s.tables, s.txs[x], a)])
    ensures Step(Km, s, Act(x, a), s')
  {
  }

  lemma FirstClaims(k: nat)
    requires k < 3
    ensures Step(Km, StateAt(k), EventAt(k), StateAt(k + 1))
  {
    Rankings();
    LocalStep(StateAt(k), 0, EventAt(k).action, StateAt(k + 1));
  }

  lemma SecondWaits(k: nat)
    requires 3 <= k < 5
    ensures Step(Km, StateAt(k), EventAt(k), StateAt(k + 1))
  {
    Rankings();
    LocalStep(StateAt(k), 1, EventAt(k).action, StateAt(k + 1));
  }

  lemma FirstCommits(k: nat)
    requires 5 <= k < 8
    ensures Step(Km, StateAt(k), EventAt(k), StateAt(k + 1))
  {
  }

  lemma ThirdStarts(k: nat)
    requires 8 <= k < 10
    ensures Step(Km, StateAt(k), EventAt(k), StateAt(k + 1))
  {
    Rankings();
    LocalStep(StateAt(k), 2, EventAt(k).action, StateAt(k + 1));
  }

  lemma ThirdClaims()
    ensures Step(Km, StateAt(10), EventAt(10), StateAt(11))
  {
    Rankings();
    LocalStep(StateAt(10), 2, Lock(false), StateAt(11));
  }

  lemma NobodyHoldsA()
    ensures !Blocked(StateAt(11), 1)
  {
    Rankings();
    var s := StateAt(11);
    assert s.txs[1].cands[0].id == "a";
    assert !HoldsDriver(s.txs[0], "a") && !HoldsDriver(s.txs[2], "a");
  }

  lemma SecondLoses()
    ensures Step(Km, StateAt(11), EventAt(11), StateAt(12))
  {
    Rankings();
    NobodyHoldsA();
    var s := StateAt(11);
    assert s.tables == After && !IsAvailable(After.drivers, "a") && s.txs[1].cands[0].id == "a";
    assert Advance(After, s.txs[1], Lock(true)) == Second({"a"}, Next(1));
    LocalStep(StateAt(11), 1, Lock(true), StateAt(12));
  }

  lemma SecondWaitsAgain()
    ensures Step(Km, StateAt(12), EventAt(12), StateAt(13))
  {
    Rankings();
    assert IsAvailable(After.drivers, "b");
    LocalStep(StateAt(12), 1, Send, StateAt(13));
  }

  lemma StepOf(k: nat)
    requires k < 13
    ensures Step(Km, StateAt(k), EventAt(k), StateAt(k + 1))
  {
    if k < 3 {
      FirstClaims(k);
    } else if k < 5 {
      SecondWaits(k);
    } else if k < 8 {
      FirstCommits(k);
    } else if k < 10 {
      ThirdStarts(k);
    } else if k == 10 {
      ThirdClaims();
    } else if k == 11 {
      SecondLoses();
    } else {
      SecondWaitsAgain();
    }
  }

  lemma FirstAndLast()
    ensures Init(StateAt(0)) && DistinctTrips(StateAt(0).txs)
    ensures var last := StateAt(13);
      && |last.txs| == 3 && last.txs[1].pc.AwaitDriver? && WaitsFor(last, 1, 2)
      && HoldsDriver(last.txs[1], "a")
  {
    FreshFleetIsLinked(Start);
    assert "s"[0] != "t"[0] && "s"[0] != "u"[0] && "t"[0] != "u"[0];
  }

  /** The run is reachable, and at its end the second transaction waits for the third while it holds
      the lock on the row of "a". */
  lemma WaiterMayHoldLock() returns (states: seq<State>, events: seq<Event>)
    ensures IsRun(Km, states, events) && Init(states[0]) && DistinctTrips(states[0].txs)
    ensures var last := states[|events|];
      && |last.txs| == 3 && last.txs[1].pc.AwaitDriver? && WaitsFor(last, 1, 2)
      && HoldsDriver(last.txs[1], "a")
  {
    states, events := seq(14, (k: nat) => StateAt(k)), seq(13, (k: nat) => EventAt(k));
    forall k | 0 <= k < 13 ensures StepAt(Km, states, events, k) {
      assert states[k] == StateAt(k) && states[k + 1] == StateAt(k + 1) && events[k] == EventAt(k);
      StepOf(k);
    }
    FirstAndLast();
    assert states[0] == StateAt(0) && states[13] == StateAt(13);
  }
}
