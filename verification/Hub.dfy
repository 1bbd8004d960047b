/** The WebSocket hub (backend/internal/wsserver/hub.go) as a state machine over interleaved
    `Register` calls, write pumps, disconnects and broadcasts.

    A broadcast holds the read lock from its start to its end, so the map of clients can only change
    while no broadcast is running. A message is named by the number of its broadcast. The histories
    `enqueued`, `taken` and `written` record what went through each client's channel. */
module Hub {

  const BUFFER: nat := 32

  datatype Pump = Unstarted | Running | Writing(msg: nat) | Stopped

  datatype Client = Client(
    joined: bool, inMap: bool, done: bool, sendClosed: bool, pump: Pump,
    buffer: seq<nat>, enqueued: seq<nat>, taken: seq<nat>, written: seq<nat>)

  datatype Phase = NotStarted | Looping | Finished

  /** `start`: the clients in the map when the broadcast began; `remaining`: those not yet visited. */
  datatype Broadcast = Broadcast(phase: Phase, start: set<nat>, remaining: set<nat>, skipped: set<nat>)

  datatype State = State(clients: seq<Client>, broadcasts: seq<Broadcast>, panicked: bool)

  datatype Event =
    | Join(c: nat)           // Lock; insert; Unlock; start the write pump
    | Disconnect(c: nat)     // the read pump returned; close(done)
    | Leave(c: nat)          // Lock; delete; Unlock
    | CloseSend(c: nat)      // close(c.send)
    | Begin(b: nat)          // RLock
    | Deliver(b: nat, c: nat)
    | End(b: nat)            // RUnlock
    | PumpTake(c: nat)
    | PumpWrite(c: nat, ok: bool)
    | PumpStop(c: nat)

  predicate NoReaders(s: State)
  {
    forall b | 0 <= b < |s.broadcasts| :: !s.broadcasts[b].phase.Looping?
  }

  function InMap(s: State): set<nat>
  {
    set c | 0 <= c < |s.clients| && s.clients[c].inMap
  }

  /** What a non-blocking send leaves in a channel. */
  function Offered(buffer: seq<nat>, msg: nat): seq<nat>
  {
    if |buffer| < BUFFER then buffer + [msg] else buffer
  }

  predicate Enabled(s: State, e: Event)
  {
    match e
    case Join(c) => c < |s.clients| && !s.clients[c].joined && NoReaders(s)
    case Disconnect(c) => c < |s.clients| && s.clients[c].joined && !s.clients[c].done
    case Leave(c) => c < |s.clients| && s.clients[c].done && s.clients[c].inMap && NoReaders(s)
    case CloseSend(c) => c < |s.clients| && s.clients[c].done && !s.clients[c].inMap && !s.clients[c].sendClosed
    case Begin(b) => b < |s.broadcasts| && s.broadcasts[b].phase.NotStarted?
    case Deliver(b, c) =>
      b < |s.broadcasts| && s.broadcasts[b].phase.Looping? && c in s.broadcasts[b].remaining && c < |s.clients|
    case End(b) => b < |s.broadcasts| && s.broadcasts[b].phase.Looping? && s.broadcasts[b].remaining == {}
    case PumpTake(c) => c < |s.clients| && s.clients[c].pump.Running? && s.clients[c].buffer != []
    case PumpWrite(c, _) => c < |s.clients| && s.clients[c].pump.Writing?
    case PumpStop(c) =>
      c < |s.clients| && s.clients[c].pump.Running?
      && (s.clients[c].done || (s.clients[c].sendClosed && s.clients[c].buffer == []))
  }

  function WithClient(s: State, c: nat, x: Client): State
    requires c < |s.clients|
  {
    s.(clients := s.clients[c := x])
  }

  function Step(s: State, e: Event): State
    requires Enabled(s, e)
  {
    match e
    case Join(c) => WithClient(s, c, s.clients[c].(joined := true, inMap := true, pump := Running))
    case Disconnect(c) => WithClient(s, c, s.clients[c].(done := true))
    case Leave(c) => WithClient(s, c, s.clients[c].(inMap := false))
    case CloseSend(c) => WithClient(s, c, s.clients[c].(sendClosed := true))
    case Begin(b) => s.(broadcasts := s.broadcasts[b := Broadcast(Looping, InMap(s), InMap(s), {})])
    case Deliver(b, c) =>
      var x, bc := s.clients[c], s.broadcasts[b];
      var visited := bc.(remaining := bc.remaining - {c});
      if x.sendClosed then s.(panicked := true)
      else if |x.buffer| < BUFFER then
        WithClient(s, c, x.(buffer := x.buffer + [b], enqueued := x.enqueued + [b])).(
          broadcasts := s.broadcasts[b := visited])
      else s.(broadcasts := s.broadcasts[b := visited.(skipped := bc.skipped + {c})])
    case End(b) => s.(broadcasts := s.broadcasts[b := s.broadcasts[b].(phase := Finished)])
    case PumpTake(c) =>
      var x := s.clients[c];
      WithClient(s, c, x.(buffer := x.buffer[1..], taken := x.taken + [x.buffer[0]], pump := Writing(x.buffer[0])))
    case PumpWrite(c, ok) =>
      var x := s.clients[c];
      WithClient(s, c, if ok then x.(written := x.written + [x.pump.msg], pump := Running) else x.(pump := Stopped))
    case PumpStop(c) => WithClient(s, c, s.clients[c].(pump := Stopped))
  }

  ghost predicate IsRun(states: seq<State>, events: seq<Event>)
  {
    && |states| == |events| + 1
    && forall i | 0 <= i < |events| :: StepAt(states, events, i)
  }

  ghost predicate StepAt(states: seq<State>, events: seq<Event>, i: nat)
    requires i < |events| < |states|
  {
    Enabled(states[i], events[i]) && states[i + 1] == Step(states[i], events[i])
  }

  predicate Init(s: State)
  {
    && !s.panicked
    && (forall c | 0 <= c < |s.clients| ::
          s.clients[c] == Client(false, false, false, false, Unstarted, [], [], [], []))
    && (forall b | 0 <= b < |s.broadcasts| :: s.broadcasts[b] == Broadcast(NotStarted, {}, {}, {}))
  }

  // ---- the invariant ----

  predicate ClientOk(x: Client)
  {
    && |x.buffer| <= BUFFER
    && x.enqueued == x.taken + x.buffer
    && x.written <= x.taken
    && (x.pump.Unstarted? || x.pump.Running? ==> x.written == x.taken)
    && (x.pump.Writing? ==> x.taken == x.written + [x.pump.msg])
    && (x.inMap || x.done || x.sendClosed ==> x.joined)
    && (x.sendClosed ==> x.done && !x.inMap)
    && (x.joined && !x.inMap ==> x.done)
    && (!x.joined ==> x.enqueued == [])
  }

  function Occurs(b: nat, msgs: seq<nat>): nat
  {
    if msgs == [] then 0 else Occurs(b, msgs[..|msgs| - 1]) + (if msgs[|msgs| - 1] == b then 1 else 0)
  }

  lemma OccursAppend(b: nat, msgs: seq<nat>, m: nat)
    ensures Occurs(b, msgs + [m]) == Occurs(b, msgs) + (if m == b then 1 else 0)
  {
    assert (msgs + [m])[..|msgs|] == msgs;
  }

  /** What broadcast `b` has done about client `c` so far. */
  predicate Visited(s: State, b: nat, c: nat)
    requires b < |s.broadcasts| && c < |s.clients|
  {
    var bc, n := s.broadcasts[b], Occurs(b, s.clients[c].enqueued);
    if c in bc.start && c !in bc.remaining then n == (if c in bc.skipped then 0 else 1)
    else n == 0 && c !in bc.skipped
  }

  predicate BroadcastOk(s: State, bc: Broadcast)
  {
    && bc.remaining <= bc.start && bc.skipped <= bc.start
    && (bc.phase.NotStarted? ==> bc.start == {})
    && (bc.phase.Looping? ==> bc.start == InMap(s))
    && (bc.phase.Finished? ==> bc.remaining == {})
  }

  predicate Inv(s: State)
  {
    && !s.panicked
    && (forall c | 0 <= c < |s.clients| :: ClientOk(s.clients[c]))
    && (forall b | 0 <= b < |s.broadcasts| :: BroadcastOk(s, s.broadcasts[b]))
    && (forall b, c | 0 <= b < |s.broadcasts| && 0 <= c < |s.clients| :: Visited(s, b, c))
  }

  lemma InitInv(s: State)
    requires Init(s)
    ensures Inv(s)
  {
  }

  lemma NoSendOnClosed(s: State, b: nat, c: nat)
    requires Inv(s) && Enabled(s, Deliver(b, c))
    ensures s.clients[c].inMap && !s.clients[c].sendClosed
  {
    assert BroadcastOk(s, s.broadcasts[b]);
    assert c in InMap(s);
    assert ClientOk(s.clients[c]);
  }

  lemma TakeKeepsClient(x: Client)
    requires ClientOk(x) && x.pump.Running? && x.buffer != []
    ensures ClientOk(x.(buffer := x.buffer[1..], taken := x.taken + [x.buffer[0]], pump := Writing(x.buffer[0])))
  {
    assert x.buffer == [x.buffer[0]] + x.buffer[1..];
  }

  lemma OfferKeepsClient(x: Client, b: nat)
    requires ClientOk(x) && |x.buffer| < BUFFER && x.joined
    ensures ClientOk(x.(buffer := x.buffer + [b], enqueued := x.enqueued + [b]))
  {
    assert x.taken + (x.buffer + [b]) == x.taken + x.buffer + [b];
  }

  lemma StepKeepsClient(s: State, e: Event, c: nat)
    requires Inv(s) && Enabled(s, e) && c < |s.clients|
    ensures ClientOk(Step(s, e).clients[c])
  {
    assert ClientOk(s.clients[c]);
    if e.PumpTake? && c == e.c {
      TakeKeepsClient(s.clients[c]);
    } else if e.Deliver? {
      NoSendOnClosed(s, e.b, e.c);
      if c == e.c && |s.clients[c].buffer| < BUFFER {
        OfferKeepsClient(s.clients[c], e.b);
      }
    }
  }

  lemma StepKeepsBroadcasts(s: State, e: Event, b: nat)
    requires Inv(s) && Enabled(s, e) && b < |s.broadcasts|
    ensures BroadcastOk(Step(s, e), Step(s, e).broadcasts[b])
  {
    var s' := Step(s, e);
    assert BroadcastOk(s, s.broadcasts[b]);
    if e.Deliver? {
      NoSendOnClosed(s, e.b, e.c);
    }
    if !e.Join? && !e.Leave? {
      assert InMap(s') == InMap(s);
    }
  }

  lemma StepKeepsVisits(s: State, e: Event, b: nat, c: nat)
    requires Inv(s) && Enabled(s, e) && b < |s.broadcasts| && c < |s.clients|
    ensures Visited(Step(s, e), b, c)
  {
    assert Visited(s, b, c) && BroadcastOk(s, s.broadcasts[b]);
    if e.Deliver? {
      DeliverKeepsVisits(s, e.b, e.c, b, c);
    } else {
      assert Step(s, e).clients[c].enqueued == s.clients[c].enqueued;
    }
  }

  lemma DeliverKeepsVisits(s: State, b0: nat, c0: nat, b: nat, c: nat)
    requires Inv(s) && Enabled(s, Deliver(b0, c0)) && b < |s.broadcasts| && c < |s.clients|
    ensures Visited(Step(s, Deliver(b0, c0)), b, c)
  {
    var s' := Step(s, Deliver(b0, c0));
    assert Visited(s, b, c) && BroadcastOk(s, s.broadcasts[b]) && BroadcastOk(s, s.broadcasts[b0]);
    NoSendOnClosed(s, b0, c0);
    if c == c0 {
      OccursAppend(b, s.clients[c].enqueued, b0);
    } else {
      assert s'.clients[c] == s.clients[c];
    }
    if b != b0 {
      assert s'.broadcasts[b] == s.broadcasts[b];
    }
  }

  lemma StepKeepsInv(s: State, e: Event)
    requires Inv(s) && Enabled(s, e)
    ensures Inv(Step(s, e))
  {
    var s' := Step(s, e);
    if e.Deliver? {
      NoSendOnClosed(s, e.b, e.c);
    }
    forall c | 0 <= c < |s'.clients| ensures ClientOk(s'.clients[c]) {
      StepKeepsClient(s, e, c);
    }
    forall b | 0 <= b < |s'.broadcasts| ensures BroadcastOk(s', s'.broadcasts[b]) {
      StepKeepsBroadcasts(s, e, b);
    }
    forall b, c | 0 <= b < |s'.broadcasts| && 0 <= c < |s'.clients| ensures Visited(s', b, c) {
      StepKeepsVisits(s, e, b, c);
    }
  }

  lemma {:induction false} RunKeepsInv(states: seq<State>, events: seq<Event>, i: nat)
    requires IsRun(states, events) && Init(states[0]) && i < |states|
    ensures Inv(states[i])
    ensures |states[i].clients| == |states[0].clients| && |states[i].broadcasts| == |states[0].broadcasts|
  {
    if i == 0 {
      InitInv(states[0]);
    } else {
      RunKeepsInv(states, events, i - 1);
      assert StepAt(states, events, i - 1);
      StepKeepsInv(states[i - 1], events[i - 1]);
    }
  }

  // ---- results ----

  /** No interleaving sends on a closed channel, no buffer grows past 32, and what the pump takes and
      writes is a prefix of what was enqueued for that client. */
  lemma ChannelsAreSafe(states: seq<State>, events: seq<Event>, i: nat, c: nat)
    requires IsRun(states, events) && Init(states[0]) && i < |states|
    requires c < |states[i].clients|
    ensures !states[i].panicked
    ensures |states[i].clients[c].buffer| <= 32
    ensures states[i].clients[c].written <= states[i].clients[c].taken <= states[i].clients[c].enqueued
    ensures |states[i].clients[c].enqueued| == |states[i].clients[c].taken| + |states[i].clients[c].buffer|
  {
    RunKeepsInv(states, events, i);
    assert ClientOk(states[i].clients[c]);
  }

  /** A broadcast skips a registered client only while 32 messages are pending for it. */
  lemma SkippedOnlyWhenFull(states: seq<State>, events: seq<Event>, i: nat, b: nat, c: nat)
    requires IsRun(states, events) && Init(states[0]) && i < |events| && StepAt(states, events, i)
    requires b < |states[i].broadcasts| == |states[i + 1].broadcasts|
    requires c in states[i + 1].broadcasts[b].skipped && c !in states[i].broadcasts[b].skipped
    ensures events[i] == Deliver(b, c)
    ensures states[i].clients[c].inMap && |states[i].clients[c].buffer| == 32
  {
    RunKeepsInv(states, events, i);
    if events[i].Deliver? {
      NoSendOnClosed(states[i], events[i].b, events[i].c);
      assert ClientOk(states[i].clients[events[i].c]);
    }
  }

  /** A finished broadcast has been enqueued exactly once for every client that was registered when it
      began, except those skipped, and for nobody else. */
  lemma BroadcastReachesEveryone(states: seq<State>, events: seq<Event>, i: nat, b: nat, c: nat)
    requires IsRun(states, events) && Init(states[0]) && i < |states|
    requires b < |states[i].broadcasts| && c < |states[i].clients|
    requires states[i].broadcasts[b].phase.Finished?
    ensures Occurs(b, states[i].clients[c].enqueued)
         == if c in states[i].broadcasts[b].start && c !in states[i].broadcasts[b].skipped then 1 else 0
  {
    RunKeepsInv(states, events, i);
    assert BroadcastOk(states[i], states[i].broadcasts[b]) && Visited(states[i], b, c);
  }

  /** The set of registered clients does not change under a running broadcast. */
  lemma RegistryFrozenDuringBroadcast(states: seq<State>, events: seq<Event>, i: nat, b: nat)
    requires IsRun(states, events) && Init(states[0]) && i < |states|
    requires b < |states[i].broadcasts| && states[i].broadcasts[b].phase.Looping?
    ensures InMap(states[i]) == states[i].broadcasts[b].start
  {
    RunKeepsInv(states, events, i);
    assert BroadcastOk(states[i], states[i].broadcasts[b]);
  }

  /** Nothing but broadcast `b` runs from its start at event `i` up to state `k`. */
  ghost predicate Undisturbed(events: seq<Event>, i: nat, k: nat, b: nat)
    requires i < k <= |events|
  {
    events[i] == Begin(b) && forall j | i < j < k :: DeliversFor(events[j], b)
  }

  predicate DeliversFor(e: Event, b: nat)
  {
    e.Deliver? && e.b == b
  }

  /** What such a broadcast has done by state `k`: each registered client it has visited was offered
      the message once, no other channel has changed. */
  lemma {:induction false} DeliveriesSoFar(states: seq<State>, events: seq<Event>, i: nat, k: nat, b: nat, c: nat)
    requires IsRun(states, events) && Init(states[0]) && i < k <= |events|
    requires Undisturbed(events, i, k, b) && c < |states[i].clients|
    ensures b < |states[k].broadcasts| && c < |states[k].clients|
    ensures states[k].broadcasts[b].phase.Looping?
    ensures states[k].clients[c].buffer ==
      if c in InMap(states[i]) && c !in states[k].broadcasts[b].remaining then Offered(states[i].clients[c].buffer, b)
      else states[i].clients[c].buffer
    ensures states[k].broadcasts[b].remaining <= InMap(states[i])
    decreases k - i
  {
    assert StepAt(states, events, k - 1);
    if i < k - 1 {
      assert DeliversFor(events[k - 1], b);
      DeliveriesSoFar(states, events, i, k - 1, b, c);
      RunKeepsInv(states, events, k - 1);
      NoSendOnClosed(states[k - 1], b, events[k - 1].c);
    }
  }

  /** A broadcast that runs undisturbed to its end offers the message once to every registered client
      and to nobody else, whatever order it visits them in. */
  lemma UndisturbedBroadcast(states: seq<State>, events: seq<Event>, i: nat, k: nat, b: nat, c: nat)
    requires IsRun(states, events) && Init(states[0]) && i < k < |events|
    requires Undisturbed(events, i, k, b) && events[k] == End(b) && c < |states[i].clients|
    ensures c < |states[k + 1].clients|
    ensures states[k + 1].clients[c].buffer ==
      if c in InMap(states[i]) then Offered(states[i].clients[c].buffer, b) else states[i].clients[c].buffer
  {
    DeliveriesSoFar(states, events, i, k, b, c);
    assert StepAt(states, events, k);
  }

  /** A connected client none of whose writes has failed has its pump running or writing, so what is
      enqueued for it goes on being written. */
  lemma {:induction false} ConnectedIsPumped(states: seq<State>, events: seq<Event>, i: nat, c: nat)
    requires IsRun(states, events) && Init(states[0]) && i < |states| && c < |states[i].clients|
    requires forall j | 0 <= j < i :: events[j] != PumpWrite(c, false)
    requires states[i].clients[c].joined && !states[i].clients[c].done
    ensures states[i].clients[c].pump.Running? || states[i].clients[c].pump.Writing?
  {
    RunKeepsInv(states, events, i - 1);
    assert StepAt(states, events, i - 1);
    assert ClientOk(states[i - 1].clients[c]);
    if states[i - 1].clients[c].joined {
      ConnectedIsPumped(states, events, i - 1, c);
    }
  }
}
