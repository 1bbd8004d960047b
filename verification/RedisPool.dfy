/** The Redis client's bounded connection pool under concurrent callers
    (backend/internal/cache/redis_client.go, lines 53-107 and 196-236).

    Every connection carries real bytes: the server appends the encoding of its reply, the caller
    runs the parser of Resp on what is there. A caller issues one command; a goroutine that issues
    several is several callers. Dialling, writing and reading may fail at any point. Assumed: the
    server sends exactly one well-formed reply per command, and no non-empty array to a GET (for
    which GetStaysInStep shows the client would lose step). */
module RedisPool {
  import opened Common
  import opened Bytes
  import opened Resp

  type ConnId = nat
  datatype Conn = Conn(open: bool, inbound: bytes)

  datatype Answer =
    | DoReply(typ: byte, val: bytes)
    | ServerError(message: bytes) // an error reply; the connection stays usable
    | GetHit(value: bytes) | GetMiss | GetUnexpected
    | InfraError

  datatype Caller =
    | Waiting(get: bool)
    | Holding(get: bool, conn: ConnId)
    | Sent(get: bool, conn: ConnId, reply: Reply)       // `reply` is the server's to this command
    | Finished(get: bool, answer: Answer, to: Option<Reply>)

  datatype State = State(poolSize: nat, pool: seq<ConnId>, conns: seq<Conn>, callers: seq<Caller>)

  datatype Event =
    | TakePooled(c: nat) | Dial(c: nat) | DialFails(c: nat)
    | Write(c: nat, reply: Reply) | WriteFails(c: nat)
    | Read(c: nat, left: bytes) | ReadFails(c: nat)

  function Close(s: State, k: ConnId): State
    requires k < |s.conns|
  {
    s.(conns := s.conns[k := Conn(false, [])])
  }

  /** `putConn`: a healthy connection goes back while there is room, any other is closed. */
  function PutConn(s: State, k: ConnId, healthy: bool): State
    requires k < |s.conns|
  {
    if healthy && |s.pool| < s.poolSize then s.(pool := s.pool + [k]) else Close(s, k)
  }

  /** What a caller makes of its connection's bytes: its answer, and the bytes left if it hands the
      connection back. */
  function Interpret(get: bool, inbound: bytes): (Answer, Option<bytes>)
  {
    if get then
      match ReadGet(inbound)
      case Hit(v, rest) => (GetHit(v), Some(rest))
      case Miss(rest) => (GetMiss, Some(rest))
      case Unexpected(rest) => (GetUnexpected, Some(rest))
      case _ => (InfraError, None)
    else
      match ReadReply(inbound)
      case Got(t, v, rest) => (if t == ERROR then ServerError(v) else DoReply(t, v), Some(rest))
      case _ => (InfraError, None)
  }

  /** The answer the protocol promises for the server's reply to a command. */
  function Expected(get: bool, r: Reply): Answer
  {
    if get then
      match r
      case Bulk(d) => GetHit(d)
      case NilBulk => GetMiss
      case _ => GetUnexpected
    else if r.Error? then ServerError(r.message)
    else DoReply(TypeOf(r), ValueOf(r))
  }

  predicate Enabled(s: State, e: Event)
  {
    && e.c < |s.callers|
    && var caller := s.callers[e.c];
    && (caller.Holding? || caller.Sent? ==> caller.conn < |s.conns|)
    && match e {
         case TakePooled(_) => caller.Waiting? && s.pool != []
         case Dial(_) => caller.Waiting? && s.pool == []
         case DialFails(_) => caller.Waiting? && s.pool == []
         case Write(_, r) =>
           caller.Holding? && WellFormed(r) && (caller.get ==> !(r.Array? && r.elems != []))
         case WriteFails(_) => caller.Holding?
         case Read(_, left) =>
           // The buffered reader may already have taken, and now drops, bytes past the reply.
           && caller.Sent?
           && var rest := Interpret(caller.get, s.conns[caller.conn].inbound).1;
           (rest.Some? ==> |left| <= |rest.value| && left == rest.value[|rest.value| - |left|..])
         case ReadFails(_) => caller.Sent?
       }
  }

  function Step(s: State, e: Event): State
    requires Enabled(s, e)
  {
    var caller := s.callers[e.c];
    match e
    case TakePooled(c) =>
      s.(pool := s.pool[1..], callers := s.callers[c := Holding(caller.get, s.pool[0])])
    case Dial(c) =>
      s.(conns := s.conns + [Conn(true, [])], callers := s.callers[c := Holding(caller.get, |s.conns|)])
    case DialFails(c) =>
      s.(callers := s.callers[c := Finished(caller.get, InfraError, None)])
    case Write(c, r) =>
      var conn := s.conns[caller.conn];
      s.(conns := s.conns[caller.conn := conn.(inbound := conn.inbound + Encode(r))],
         callers := s.callers[c := Sent(caller.get, caller.conn, r)])
    case WriteFails(c) =>
      PutConn(s, caller.conn, false).(callers := s.callers[c := Finished(caller.get, InfraError, None)])
    case Read(c, left) =>
      var (answer, rest) := Interpret(caller.get, s.conns[caller.conn].inbound);
      var consumed := s.(conns := s.conns[caller.conn := s.conns[caller.conn].(inbound := left)]);
      PutConn(consumed, caller.conn, rest.Some?).(
        callers := s.callers[c := Finished(caller.get, answer, Some(caller.reply))])
    case ReadFails(c) =>
      PutConn(s, caller.conn, false).(callers := s.callers[c := Finished(caller.get, InfraError, Some(caller.reply))])
  }

  ghost predicate IsRun(states: seq<State>, events: seq<Event>)
  {
    && |states| == |events| + 1
    && forall i | 0 <= i < |events| :: StepAt(states, events, i)
  }

  ghost predicate StepAt(states: seq<State>, events: seq<Event>, i: nat)
    requires i < |events| < |states|
  {
    Enabled(states[i], events[i]) && states[i + 1] == Step(states[i], events[i])
  }

  predicate Init(s: State)
  {
    && s.pool == [] && s.conns == []
    && forall c | 0 <= c < |s.callers| :: s.callers[c].Waiting?
  }

  // ---- the invariant ----

  predicate Owns(caller: Caller, k: ConnId)
  {
    (caller.Holding? || caller.Sent?) && caller.conn == k
  }

  predicate CallerOk(s: State, caller: Caller)
  {
    && (caller.Holding? ==>
          && caller.conn < |s.conns| && caller.conn !in s.pool
          && s.conns[caller.conn] == Conn(true, []))
    && (caller.Sent? ==>
          && caller.conn < |s.conns| && caller.conn !in s.pool
          && WellFormed(caller.reply) && (caller.get ==> !(caller.reply.Array? && caller.reply.elems != []))
          && s.conns[caller.conn] == Conn(true, Encode(caller.reply)))
    && (caller.Finished? && !caller.answer.InfraError? ==>
          caller.to.Some? && caller.answer == Expected(caller.get, caller.to.value))
  }

  ghost predicate Owned(s: State, k: ConnId)
  {
    exists c :: 0 <= c < |s.callers| && Owns(s.callers[c], k)
  }

  /** The pool is within its bound and holds distinct open connections with nothing unread. */
  ghost predicate PoolOk(s: State)
  {
    && |s.pool| <= s.poolSize
    && (forall i, j | 0 <= i < j < |s.pool| :: s.pool[i] != s.pool[j])
    && (forall i | 0 <= i < |s.pool| :: s.pool[i] < |s.conns| && s.conns[s.pool[i]] == Conn(true, []))
  }

  ghost predicate Inv(s: State)
  {
    && PoolOk(s)
    && (forall c | 0 <= c < |s.callers| :: CallerOk(s, s.callers[c]))
    && (forall c, d, k | 0 <= c < d < |s.callers| && Owns(s.callers[c], k) :: !Owns(s.callers[d], k))
    && (forall k | 0 <= k < |s.conns| && s.conns[k].open && k !in s.pool :: Owned(s, k))
  }

  lemma InitInv(s: State)
    requires Init(s)
    ensures Inv(s)
  {
  }

  /** On a connection that holds exactly the reply to its own command, a caller gets the expected
      answer and leaves nothing unread. */
  lemma InterpretsOwnReply(get: bool, r: Reply)
    requires WellFormed(r) && (get ==> !(r.Array? && r.elems != []))
    ensures Interpret(get, Encode(r)) == (Expected(get, r), Some([]))
  {
    assert Encode(r) + [] == Encode(r);
    if get {
      ReadGetReads(r, []);
      if r.Array? {
        assert EncodeAll(r.elems) + [] == [];
      }
    } else {
      ReadReplyInvertsEncode(r, []);
    }
  }

  /** The shape every step has: one caller moves, and with it at most the one connection `k`, which
      is then pooled, owned by that caller, or closed. */
  lemma OneConnectionMoves(s: State, s': State, c: nat, k: ConnId)
    requires Inv(s) && c < |s.callers| == |s'.callers|
    requires forall d | 0 <= d < |s.callers| && d != c :: s'.callers[d] == s.callers[d] && !Owns(s.callers[d], k)
    requires |s.conns| <= |s'.conns| && (|s'.conns| == |s.conns| || |s'.conns| == k + 1 == |s.conns| + 1)
    requires forall j | 0 <= j < |s.conns| && j != k :: s'.conns[j] == s.conns[j]
    requires forall j | j != k :: j in s.pool <==> j in s'.pool
    requires forall j :: Owns(s.callers[c], j) || Owns(s'.callers[c], j) ==> j == k
    requires PoolOk(s') && CallerOk(s', s'.callers[c])
    requires k < |s'.conns| && s'.conns[k].open && k !in s'.pool ==> Owns(s'.callers[c], k)
    ensures Inv(s')
  {
    forall d | 0 <= d < |s'.callers|
      ensures CallerOk(s', s'.callers[d])
    {
      if d != c {
        assert CallerOk(s, s.callers[d]);
      }
    }
    forall j | 0 <= j < |s'.conns| && s'.conns[j].open && j !in s'.pool
      ensures Owned(s', j)
    {
      if j == k {
        assert Owns(s'.callers[c], j);
      } else {
        assert Owned(s, j);
        var d :| 0 <= d < |s.callers| && Owns(s.callers[d], j);
        assert Owns(s'.callers[d], j);
      }
    }
  }

  lemma TakeKeepsInv(s: State, c: nat)
    requires Inv(s) && Enabled(s, TakePooled(c))
    ensures Inv(Step(s, TakePooled(c)))
  {
    var s', k := Step(s, TakePooled(c)), s.pool[0];
    assert k in s.pool && s.pool == [k] + s'.pool;
    forall d | 0 <= d < |s.callers| ensures !Owns(s.callers[d], k) {
      assert CallerOk(s, s.callers[d]);
    }
    OneConnectionMoves(s, s', c, k);
  }

  lemma DialKeepsInv(s: State, e: Event)
    requires Inv(s) && Enabled(s, e) && (e.Dial? || e.DialFails?)
    ensures Inv(Step(s, e))
  {
    forall d | 0 <= d < |s.callers| ensures !Owns(s.callers[d], |s.conns|) {
      assert CallerOk(s, s.callers[d]);
    }
    OneConnectionMoves(s, Step(s, e), e.c, |s.conns|);
  }

  /** The caller that owns a connection is its only owner, and it is not in the pool. */
  lemma SoleOwner(s: State, c: nat, k: ConnId)
    requires Inv(s) && c < |s.callers| && Owns(s.callers[c], k)
    ensures k < |s.conns| && k !in s.pool && s.conns[k].open
    ensures forall d | 0 <= d < |s.callers| && d != c :: !Owns(s.callers[d], k)
  {
    assert CallerOk(s, s.callers[c]);
  }

  lemma WriteKeepsInv(s: State, c: nat, r: Reply)
    requires Inv(s) && Enabled(s, Write(c, r))
    ensures Inv(Step(s, Write(c, r)))
  {
    var k := s.callers[c].conn;
    SoleOwner(s, c, k);
    assert CallerOk(s, s.callers[c]);
    assert [] + Encode(r) == Encode(r);
    OneConnectionMoves(s, Step(s, Write(c, r)), c, k);
  }

  /** Finishing: the connection is handed back clean, or closed. */
  lemma ReleaseKeepsInv(s: State, c: nat, healthy: bool, done: Caller)
    requires Inv(s) && c < |s.callers| && (s.callers[c].Holding? || s.callers[c].Sent?)
    requires s.callers[c].conn < |s.conns| && done.Finished? && CallerOk(s, done)
    ensures var k := s.callers[c].conn;
      Inv(PutConn(s.(conns := s.conns[k := Conn(true, [])]), k, healthy).(callers := s.callers[c := done]))
  {
    var k := s.callers[c].conn;
    SoleOwner(s, c, k);
    var clean := s.(conns := s.conns[k := Conn(true, [])]);
    var s' := PutConn(clean, k, healthy).(callers := s.callers[c := done]);
    assert PoolOk(clean);
    assert PoolOk(s');
    OneConnectionMoves(s, s', c, k);
  }

  lemma FailureKeepsInv(s: State, e: Event)
    requires Inv(s) && Enabled(s, e) && (e.WriteFails? || e.ReadFails?)
    ensures Inv(Step(s, e))
  {
    var k := s.callers[e.c].conn;
    var done := Step(s, e).callers[e.c];
    ReleaseKeepsInv(s, e.c, false, done);
    assert s.conns[k := Conn(true, [])][k := Conn(false, [])] == s.conns[k := Conn(false, [])];
  }

  lemma ReadKeepsInv(s: State, c: nat, left: bytes)
    requires Inv(s) && Enabled(s, Read(c, left))
    ensures Inv(Step(s, Read(c, left)))
  {
    var caller := s.callers[c];
    assert CallerOk(s, caller);
    InterpretsOwnReply(caller.get, caller.reply);
    ReleaseKeepsInv(s, c, true, Finished(caller.get, Expected(caller.get, caller.reply), Some(caller.reply)));
  }

  lemma StepKeepsInv(s: State, e: Event)
    requires Inv(s) && Enabled(s, e)
    ensures Inv(Step(s, e))
  {
    match e {
      case TakePooled(c) => TakeKeepsInv(s, c);
      case Dial(_) => DialKeepsInv(s, e);
      case DialFails(_) => DialKeepsInv(s, e);
      case Write(c, r) => WriteKeepsInv(s, c, r);
      case Read(c, left) => ReadKeepsInv(s, c, left);
      case WriteFails(_) => FailureKeepsInv(s, e);
      case ReadFails(_) => FailureKeepsInv(s, e);
    }
  }

  lemma {:induction false} RunKeepsInv(states: seq<State>, events: seq<Event>, i: nat)
    requires IsRun(states, events) && Init(states[0]) && i < |states|
    ensures Inv(states[i]) && states[i].poolSize == states[0].poolSize
  {
    if i == 0 {
      InitInv(states[0]);
    } else {
      RunKeepsInv(states, events, i - 1);
      assert StepAt(states, events, i - 1);
      StepKeepsInv(states[i - 1], events[i - 1]);
    }
  }

  /** Every reply returned is the answer to that caller's own command: whatever `c` finishes with is
      an infrastructure error or the expected answer to the reply the server gave to `c`'s write. */
  lemma RepliesAreOwn(states: seq<State>, events: seq<Event>, i: nat, k: nat, c: nat)
    requires IsRun(states, events) && Init(states[0]) && i < k < |states|
    requires c < |states[0].callers| && events[i].Write? && events[i].c == c
    requires c < |states[k].callers| && states[k].callers[c].Finished?
    ensures var f := states[k].callers[c];
      f.answer.InfraError? ||
      match events[i].reply
      case Bulk(d) => f.answer == if f.get then GetHit(d) else DoReply(BULK, d)
      case NilBulk => f.answer == if f.get then GetMiss else DoReply(BULK, [])
      case Error(m) => f.answer == if f.get then GetUnexpected else ServerError(m)
      case other => f.answer == if f.get then GetUnexpected else DoReply(TypeOf(other), ValueOf(other))
  {
    RunKeepsInv(states, events, k);
    assert CallerOk(states[k], states[k].callers[c]);
    assert StepAt(states, events, i);
    ReplyRecorded(states, events, i + 1, k, c, events[i].reply);
  }

  predicate Recorded(caller: Caller, r: Reply)
  {
    || (caller.Sent? && caller.reply == r)
    || (caller.Finished? && (caller.to == Some(r) || caller.answer.InfraError?))
  }

  lemma {:induction false} ReplyRecorded(states: seq<State>, events: seq<Event>, i: nat, k: nat, c: nat, r: Reply)
    requires IsRun(states, events) && i <= k < |states|
    requires c < |states[i].callers| && Recorded(states[i].callers[c], r)
    ensures c < |states[k].callers| && Recorded(states[k].callers[c], r)
    decreases k - i
  {
    if i < k {
      ReplyRecorded(states, events, i, k - 1, c, r);
      assert StepAt(states, events, k - 1);
    }
  }

  /** An error is returned only when dialling, writing or reading failed for this very caller. */
  lemma ErrorsComeFromFailures(states: seq<State>, events: seq<Event>, i: nat, c: nat)
    requires IsRun(states, events) && Init(states[0]) && i < |events| && StepAt(states, events, i)
    requires c < |states[i].callers| && c < |states[i + 1].callers| && !states[i].callers[c].Finished?
    requires states[i + 1].callers[c].Finished? && states[i + 1].callers[c].answer.InfraError?
    ensures events[i].c == c && (events[i].DialFails? || events[i].WriteFails? || events[i].ReadFails?)
  {
    RunKeepsInv(states, events, i);
    assert CallerOk(states[i], states[i].callers[c]);
    if events[i].Read? {
      InterpretsOwnReply(states[i].callers[c].get, states[i].callers[c].reply);
    }
  }

  /** A caller that has read its reply hands its connection back: open, with nothing unread and last in
      line, as long as the pool has room, and closed otherwise. */
  lemma ReadReleases(s: State, c: nat, left: bytes)
    requires Inv(s) && Enabled(s, Read(c, left))
    ensures var s', k := Step(s, Read(c, left)), s.callers[c].conn;
      && s'.pool == (if |s.pool| < s.poolSize then s.pool + [k] else s.pool)
      && s'.conns == s.conns[k := Conn(|s.pool| < s.poolSize, [])]
  {
    assert CallerOk(s, s.callers[c]);
    InterpretsOwnReply(s.callers[c].get, s.callers[c].reply);
  }

  /** A caller that never wrote its command never returns a value. */
  lemma {:induction false} NoAnswerWithoutWrite(states: seq<State>, events: seq<Event>, k: nat, c: nat)
    requires IsRun(states, events) && Init(states[0]) && k < |states|
    requires forall i | 0 <= i < k :: !(events[i].Write? && events[i].c == c)
    requires c < |states[0].callers|
    ensures |states[k].callers| == |states[0].callers|
    ensures var f := states[k].callers[c]; f.Waiting? || f.Holding? || (f.Finished? && f.answer.InfraError?)
  {
    if k > 0 {
      NoAnswerWithoutWrite(states, events, k - 1, c);
      assert StepAt(states, events, k - 1);
    }
  }

  /** In every reachable state the pool is within its bound, a pooled connection is open with
      nothing unread, and an open connection is either pooled (once) or owned by exactly one caller. */
  lemma EveryConnectionAccountedFor(states: seq<State>, events: seq<Event>, i: nat, k: ConnId)
    requires IsRun(states, events) && Init(states[0]) && i < |states|
    ensures |states[i].pool| <= states[0].poolSize
    ensures forall a, b | 0 <= a < b < |states[i].pool| :: states[i].pool[a] != states[i].pool[b]
    ensures k in states[i].pool ==> k < |states[i].conns| && states[i].conns[k] == Conn(true, [])
    ensures k < |states[i].conns| && states[i].conns[k].open ==> (k in states[i].pool <==> !Owned(states[i], k))
    ensures forall c, d | 0 <= c < d < |states[i].callers| && Owns(states[i].callers[c], k) :: !Owns(states[i].callers[d], k)
  {
    RunKeepsInv(states, events, i);
    var s := states[i];
    forall c | 0 <= c < |s.callers| && Owns(s.callers[c], k)
      ensures k !in s.pool
    {
      assert CallerOk(s, s.callers[c]);
    }
  }
}
