/** Concurrent dispatch never deadlocks and always finishes. */
module DispatchLiveness {
  import opened Fleet
  import opened DispatchProtocol
  import opened DispatchSafety

  /** A rank that strictly grows along every wait. Waiters for driver rows are ordered by how much
      their statement snapshots had seen; waiters for a trip row come next; nobody else waits. */
  function WaitRank(s: State, x: nat): nat
    requires x < |s.txs|
  {
    match s.txs[x].pc
    case AwaitDriver(_, seen) => |seen|
    case AwaitTrip(_) => |s.tables.drivers| + 1
    case _ => |s.tables.drivers| + 2
  }

  lemma ProperSubsetSize<T>(a: set<T>, b: set<T>, x: T)
    requires a <= b && x in b && x !in a
    ensures |a| < |b|
  {
    SubsetSize(a, b - {x});
  }

  lemma WaitRankGrows(km: Metric, s: State, x: nat, y: nat)
    requires Inv(km, s) && WaitsFor(s, x, y)
    ensures WaitRank(s, x) < WaitRank(s, y) && !s.txs[y].pc.Done?
  {
    var a, b := s.txs[x], s.txs[y];
    assert TxInv(km, s.tables, a) && TxInv(km, s.tables, b) && Compatible(a, b);
    if a.pc.AwaitDriver? {
      var d := a.cands[a.pc.next].id;
      SubsetSize(BusyIds(s.tables.drivers), s.tables.drivers.Keys);
      SubsetSize(a.pc.seen, BusyIds(s.tables.drivers));
      if b.pc.AwaitDriver? {
        assert d in b.kept && d in b.pc.seen;
        ProperSubsetSize(a.pc.seen, b.pc.seen, d);
      }
    }
  }

  /** `chain` follows the waits-for relation. */
  predicate WaitChain(s: State, chain: seq<nat>)
  {
    forall i | 0 <= i < |chain| - 1 :: WaitsFor(s, chain[i], chain[i + 1])
  }

  lemma {:induction false} ChainRankGrows(km: Metric, s: State, chain: seq<nat>)
    requires Inv(km, s) && WaitChain(s, chain) && |chain| >= 2
    ensures chain[0] < |s.txs| && chain[|chain| - 1] < |s.txs|
    ensures WaitRank(s, chain[0]) < WaitRank(s, chain[|chain| - 1])
  {
    WaitRankGrows(km, s, chain[0], chain[1]);
    if |chain| > 2 {
      ChainRankGrows(km, s, chain[1..]);
    }
  }

  /** No set of transactions waits in a circle, in any reachable state. */
  lemma NoWaitCycle(km: Metric, states: seq<State>, events: seq<Event>, i: nat, chain: seq<nat>)
    requires IsRun(km, states, events) && Init(states[0]) && i < |states|
    requires |chain| >= 2 && WaitChain(states[i], chain)
    ensures chain[0] != chain[|chain| - 1]
  {
    InitInv(km, states[0]);
    RunKeepsInv(km, states, events, i);
    ChainRankGrows(km, states[i], chain);
  }

  /** At event `j`, transaction `x` loses a re-check and keeps the row's lock. */
  predicate KeepsLock(states: seq<State>, events: seq<Event>, j: nat, x: nat)
    requires j < |events| < |states|
  {
    && events[j] == Act(x, Lock(true)) && x < |states[j].txs|
    && var tx := states[j].txs[x];
    && tx.pc.AwaitDriver? && tx.pc.next < |tx.cands|
    && !IsAvailable(states[j].tables.drivers, tx.cands[tx.pc.next].id)
  }

  /** That row is the one of driver `d`. */
  predicate KeepsLockOf(states: seq<State>, events: seq<Event>, j: nat, x: nat, d: DriverId)
    requires j < |events| < |states|
  {
    KeepsLock(states, events, j, x) && states[j].txs[x].cands[states[j].txs[x].pc.next].id == d
  }

  ghost predicate LostBefore(states: seq<State>, events: seq<Event>, i: nat, x: nat, d: DriverId)
    requires i <= |events| < |states|
  {
    exists j :: 0 <= j < i && KeepsLockOf(states, events, j, x, d)
  }

  /** An unfinished transaction keeps the locks of exactly the re-checks it lost and kept. */
  lemma {:induction false} KeptMeansLost(km: Metric, states: seq<State>, events: seq<Event>, i: nat, x: nat, d: DriverId)
    requires IsRun(km, states, events) && Init(states[0]) && i < |states|
    requires x < |states[i].txs| && !states[i].txs[x].pc.Done?
    ensures d in states[i].txs[x].kept <==> LostBefore(states, events, i, x, d)
  {
    if i > 0 {
      RequestsStay(km, states, events, i - 1);
      RequestsStay(km, states, events, i);
      assert StepAt(km, states, events, i - 1);
      KeptMeansLost(km, states, events, i - 1, x, d);
      assert d in states[i].txs[x].kept <==>
        d in states[i - 1].txs[x].kept || KeepsLockOf(states, events, i - 1, x, d);
    }
  }

  /** Exactly what a waiting transaction holds. Waiting for a driver row: the locks of re-checks it
      lost and kept, all on rows already BUSY. Waiting for a trip row: those and its claim, the one
      driver among them that is AVAILABLE. */
  lemma WaiterHolds(km: Metric, states: seq<State>, events: seq<Event>, i: nat, x: nat, d: DriverId)
    requires IsRun(km, states, events) && Init(states[0]) && i < |states| && x < |states[i].txs|
    ensures var tx, drivers := states[i].txs[x], states[i].tables.drivers;
      && (tx.pc.AwaitDriver? ==>
            && (HoldsDriver(tx, d) <==> LostBefore(states, events, i, x, d))
            && (HoldsDriver(tx, d) ==> d in BusyIds(drivers)))
      && (tx.pc.AwaitTrip? ==>
            && tx.pc.next < |tx.cands|
            && (HoldsDriver(tx, d) <==> d == tx.cands[tx.pc.next].id || LostBefore(states, events, i, x, d))
            && (HoldsDriver(tx, d) && IsAvailable(drivers, d) <==> d == tx.cands[tx.pc.next].id))
  {
    InitInv(km, states[0]);
    RunKeepsInv(km, states, events, i);
    assert TxInv(km, states[i].tables, states[i].txs[x]);
    if !states[i].txs[x].pc.Done? {
      KeptMeansLost(km, states, events, i, x, d);
    }
  }

  /** A transaction waiting for a driver row holds no lock exactly when it has lost and kept none. */
  lemma WaiterHoldsNothingIff(km: Metric, states: seq<State>, events: seq<Event>, i: nat, x: nat)
    requires IsRun(km, states, events) && Init(states[0]) && i < |states| && x < |states[i].txs|
    requires states[i].txs[x].pc.AwaitDriver?
    ensures (forall d :: !HoldsDriver(states[i].txs[x], d))
       <==> !exists j :: 0 <= j < i && KeepsLock(states, events, j, x)
  {
    forall d ensures HoldsDriver(states[i].txs[x], d) <==> LostBefore(states, events, i, x, d) {
      WaiterHolds(km, states, events, i, x, d);
    }
    if j :| 0 <= j < i && KeepsLock(states, events, j, x) {
      var d := states[j].txs[x].cands[states[j].txs[x].pc.next].id;
      assert KeepsLockOf(states, events, j, x, d);
      assert LostBefore(states, events, i, x, d);
    }
  }

  lemma {:induction false} HighestUnfinished(s: State, n: nat) returns (x: nat)
    requires n <= |s.txs|
    requires exists y | 0 <= y < n :: !s.txs[y].pc.Done?
    ensures x < n && !s.txs[x].pc.Done?
    ensures forall y | 0 <= y < n && !s.txs[y].pc.Done? :: WaitRank(s, y) <= WaitRank(s, x)
  {
    if forall y | 0 <= y < n - 1 :: s.txs[y].pc.Done? {
      x := n - 1;
    } else {
      x := HighestUnfinished(s, n - 1);
      if !s.txs[n - 1].pc.Done? && WaitRank(s, n - 1) > WaitRank(s, x) {
        x := n - 1;
      }
    }
  }

  lemma HighestIsNotBlocked(km: Metric, s: State, x: nat)
    requires Inv(km, s) && x < |s.txs|
    requires forall y | 0 <= y < |s.txs| && !s.txs[y].pc.Done? :: WaitRank(s, y) <= WaitRank(s, x)
    ensures !Blocked(s, x)
  {
    forall y | 0 <= y < |s.txs|
      ensures !WaitsFor(s, x, y)
    {
      if WaitsFor(s, x, y) {
        WaitRankGrows(km, s, x, y);
      }
    }
  }

  /** Whenever some transaction is unfinished, one of the unfinished ones can take a real step. */
  lemma SomeoneCanMove(km: Metric, s: State) returns (x: nat, a: Action, s': State)
    requires Inv(km, s)
    requires exists y | 0 <= y < |s.txs| :: !s.txs[y].pc.Done?
    ensures !a.Fail? && Step(km, s, Act(x, a), s')
  {
    x := HighestUnfinished(s, |s.txs|);
    var tx := s.txs[x];
    assert TxInv(km, s.tables, tx);
    HighestIsNotBlocked(km, s, x);
    match tx.pc {
      case Idle =>
        RankingExists(km, tx.pickup, s.tables.drivers);
        var cands :| IsRanking(km, tx.pickup, s.tables.drivers, cands);
        a := Snapshot(cands);
      case Next(_) => a := Send;
      case AwaitDriver(_, _) => a := Lock(false);
      case Claimed(_) => a := SendTrip;
      case AwaitTrip(_) => a := LockTrip;
      case Written(_) => a := Commit;
    }
    var tables := if a.Commit? then Assign(s.tables, tx.trip, tx.cands[tx.pc.next].id) else s.tables;
    s' := State(tables, s.txs[x := Advance(s.tables, tx, a)]);
  }

  /** Steps a transaction has left at most; each candidate costs at most two. */
  function Work(drivers: nat, tx: Tx): nat
  {
    match tx.pc
    case Idle => 2 * drivers + 4
    case Next(n) => 2 * Left(tx, n) + 3
    case AwaitDriver(n, _) => 2 * Left(tx, n) + 2
    case Claimed(_) => 3
    case AwaitTrip(_) => 2
    case Written(_) => 1
    case Done(_) => 0
  }

  function Left(tx: Tx, n: nat): nat
  {
    if n <= |tx.cands| then |tx.cands| - n else 0
  }

  function TotalWork(drivers: nat, txs: seq<Tx>): nat
  {
    if txs == [] then 0 else Work(drivers, txs[0]) + TotalWork(drivers, txs[1..])
  }

  lemma {:induction false} TotalWorkUpdate(drivers: nat, txs: seq<Tx>, x: nat, tx: Tx)
    requires x < |txs|
    ensures TotalWork(drivers, txs[x := tx]) == TotalWork(drivers, txs) - Work(drivers, txs[x]) + Work(drivers, tx)
  {
    if x == 0 {
      assert txs[0 := tx][1..] == txs[1..];
    } else {
      TotalWorkUpdate(drivers, txs[1..], x - 1, tx);
      assert txs[x := tx][1..] == txs[1..][x - 1 := tx];
    }
  }

  /** Every transaction step uses up some of the total work; inserting a trip uses none. */
  lemma StepUsesWork(km: Metric, s: State, e: Event, s': State)
    requires Inv(km, s) && Step(km, s, e, s')
    ensures |s'.tables.drivers| == |s.tables.drivers|
    ensures TotalWork(|s'.tables.drivers|, s'.txs) <= TotalWork(|s.tables.drivers|, s.txs) - (if e.Act? then 1 else 0)
  {
    assert s'.tables.drivers.Keys == s.tables.drivers.Keys;
    assert |s'.tables.drivers| == |s'.tables.drivers.Keys| == |s.tables.drivers|;
    if e.Act? {
      assert TxInv(km, s.tables, s.txs[e.x]);
      AdvanceUsesWork(km, s.tables, s.txs[e.x], e.action);
      TotalWorkUpdate(|s.tables.drivers|, s.txs, e.x, Advance(s.tables, s.txs[e.x], e.action));
    }
  }

  lemma AdvanceUsesWork(km: Metric, tables: Tables, tx: Tx, a: Action)
    requires TxInv(km, tables, tx) && Enabled(km, State(tables, [tx]), 0, a)
    ensures Work(|tables.drivers|, Advance(tables, tx, a)) < Work(|tables.drivers|, tx)
  {
    if a.Snapshot? {
      RankingLength(km, tx.pickup, tables.drivers, a.cands);
    }
  }

  function TxSteps(events: seq<Event>): nat
  {
    if events == [] then 0 else TxSteps(events[..|events| - 1]) + (if events[|events| - 1].Act? then 1 else 0)
  }

  lemma RunPrefix(km: Metric, states: seq<State>, events: seq<Event>, n: nat)
    requires IsRun(km, states, events) && n <= |events|
    ensures IsRun(km, states[..n + 1], events[..n])
  {
    var states', events' := states[..n + 1], events[..n];
    forall i | 0 <= i < n ensures StepAt(km, states', events', i) {
      assert StepAt(km, states, events, i);
    }
  }

  lemma {:induction false} RunUsesWork(km: Metric, states: seq<State>, events: seq<Event>)
    requires IsRun(km, states, events) && Inv(km, states[0])
    ensures |states[|events|].tables.drivers| == |states[0].tables.drivers|
    ensures TxSteps(events) + TotalWork(|states[0].tables.drivers|, states[|events|].txs)
         <= TotalWork(|states[0].tables.drivers|, states[0].txs)
  {
    if events != [] {
      var n := |events| - 1;
      RunPrefix(km, states, events, n);
      RunUsesWork(km, states[..n + 1], events[..n]);
      RunKeepsInv(km, states, events, n);
      assert StepAt(km, states, events, n);
      StepUsesWork(km, states[n], events[n], states[n + 1]);
    }
  }

  lemma {:induction false} IdleWork(drivers: nat, txs: seq<Tx>)
    requires forall x | 0 <= x < |txs| :: txs[x].pc.Idle?
    ensures TotalWork(drivers, txs) == |txs| * (2 * drivers + 4)
  {
    if txs != [] {
      IdleWork(drivers, txs[1..]);
    }
  }

  lemma UnfinishedGoesOn(km: Metric, s: State)
    requires Inv(km, s) && exists y | 0 <= y < |s.txs| :: !s.txs[y].pc.Done?
    ensures exists x: nat, a: Action, s': State | !a.Fail? :: Step(km, s, Act(x, a), s')
  {
    var x, a, s' := SomeoneCanMove(km, s);
    assert Step(km, s, Act(x, a), s');
  }

  /** All transactions finish: a run has at most `2 * drivers + 4` steps per transaction, and a run
      that cannot be continued has no unfinished transaction. */
  lemma EveryTransactionFinishes(km: Metric, states: seq<State>, events: seq<Event>)
    requires IsRun(km, states, events) && Init(states[0])
    ensures TxSteps(events) <= |states[0].txs| * (2 * |states[0].tables.drivers| + 4)
    ensures (forall x: nat, a: Action, s': State | !a.Fail? :: !Step(km, states[|events|], Act(x, a), s')) ==>
      forall x | 0 <= x < |states[|events|].txs| :: states[|events|].txs[x].pc.Done?
  {
    InitInv(km, states[0]);
    RunUsesWork(km, states, events);
    RunKeepsInv(km, states, events, |events|);
    IdleWork(|states[0].tables.drivers|, states[0].txs);
    if exists x | 0 <= x < |states[|events|].txs| :: !states[|events|].txs[x].pc.Done? {
      UnfinishedGoesOn(km, states[|events|]);
    }
  }
}
