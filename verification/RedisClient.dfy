/** The Redis client object (backend/internal/cache/redis_client.go, lines 53-107 and 196-236): its
    methods, one call at a time, keep the invariant of RedisPool. */
module RedisClient {
  import opened Common
  import opened Bytes
  import opened Resp
  import opened RespReader
  import P = RedisPool

  class Client {
    const poolSize: nat
    var pool: seq<P.ConnId>
    var conns: seq<P.Conn>

    constructor (poolSize: nat)
      ensures this.poolSize == poolSize && pool == [] && conns == []
      ensures Valid()
    {
      this.poolSize, pool, conns := poolSize, [], [];
    }

    /** Between commands: the pool is within its bound and holds distinct open connections with
        nothing unread; with nobody else about, every other connection is closed. */
    ghost predicate Valid()
      reads this
    {
      && P.Inv(Snapshot([]))
    }

    ghost function Snapshot(callers: seq<P.Caller>): P.State
      reads this
    {
      P.State(poolSize, pool, conns, callers)
    }

    /** The caller is about to send a GET or another command. */
    method GetConn(dials: bool, ghost get: bool) returns (conn: Option<P.ConnId>)
      requires Valid()
      modifies this
      ensures conn.None? <==> old(pool) == [] && !dials
      ensures conn.None? ==> Snapshot([]) == old(Snapshot([]))
      ensures conn.Some? ==>
        && conn.value < |conns| && conns[conn.value] == P.Conn(true, [])
        && conn.value !in pool && P.Inv(Snapshot([P.Holding(get, conn.value)]))
      ensures conn.Some? && old(pool) != [] ==> [conn.value] + pool == old(pool) && conns == old(conns)
      ensures conn.Some? && old(pool) == [] ==> pool == [] && conns == old(conns) + [P.Conn(true, [])]
    {
      ghost var before := Snapshot([P.Waiting(get)]);
      assert P.Inv(before);
      if pool != [] {
        assert pool[0] in pool;
        P.StepKeepsInv(before, P.TakePooled(0));
        conn := Some(pool[0]);
        pool := pool[1..];
        assert Snapshot([P.Holding(get, conn.value)]) == P.Step(before, P.TakePooled(0));
        return;
      }
      if !dials {
        return None;
      }
      P.StepKeepsInv(before, P.Dial(0));
      conn := Some(|conns|);
      conns := conns + [P.Conn(true, [])];
      assert Snapshot([P.Holding(get, conn.value)]) == P.Step(before, P.Dial(0));
    }

    method PutConn(k: P.ConnId, healthy: bool)
      requires k < |conns|
      modifies this
      ensures Snapshot([]) == P.PutConn(old(Snapshot([])), k, healthy)
      ensures pool == if healthy && |old(pool)| < poolSize then old(pool) + [k] else old(pool)
      ensures conns == if healthy && |old(pool)| < poolSize then old(conns) else old(conns)[k := P.Conn(false, [])]
    {
      if !healthy {
        conns := conns[k := P.Conn(false, [])];
        return;
      }
      if |pool| < poolSize {
        pool := pool + [k];
      } else {
        conns := conns[k := P.Conn(false, [])];
      }
    }

    /** `do`: `dials`, `writeOk` and `readOk` say whether those operations succeed, `reply` is what
        the server answers to this command. */
    method Do(dials: bool, writeOk: bool, readOk: bool, reply: Reply) returns (answer: P.Answer)
      requires Valid() && WellFormed(reply)
      modifies this
      ensures Valid()
      ensures !((old(pool) != [] || dials) && writeOk && readOk) ==> answer == P.InfraError
      ensures (old(pool) != [] || dials) && writeOk && readOk ==>
        match reply
        case Error(m) => answer == P.ServerError(m)
        case _ => answer == P.DoReply(TypeOf(reply), ValueOf(reply))
    {
      answer := Exchange(false, dials, writeOk, readOk, reply);
    }

    method GetOrNil(dials: bool, writeOk: bool, readOk: bool, reply: Reply) returns (answer: P.Answer)
      requires Valid() && WellFormed(reply) && !(reply.Array? && reply.elems != [])
      modifies this
      ensures Valid()
      ensures !((old(pool) != [] || dials) && writeOk && readOk) ==> answer == P.InfraError
      ensures (old(pool) != [] || dials) && writeOk && readOk ==>
        match reply
        case Bulk(d) => answer == P.GetHit(d)
        case NilBulk => answer == P.GetMiss
        case _ => answer == P.GetUnexpected
    {
      answer := Exchange(true, dials, writeOk, readOk, reply);
    }

    /** What `do` and `GetOrNil` have in common: take a connection and write the command. */
    method Exchange(get: bool, dials: bool, writeOk: bool, readOk: bool, reply: Reply) returns (answer: P.Answer)
      requires Valid() && WellFormed(reply) && (get ==> !(reply.Array? && reply.elems != []))
      modifies this
      ensures Valid()
      ensures answer == if (old(pool) != [] || dials) && writeOk && readOk then P.Expected(get, reply) else P.InfraError
    {
      var conn := GetConn(dials, get);
      if conn.None? {
        return P.InfraError;
      }
      var k := conn.value;
      ghost var held := Snapshot([P.Holding(get, k)]);
      if !writeOk {
        FinishedStep(held, P.WriteFails(0));
        PutConn(k, false);
        return P.InfraError;
      }
      WrittenStep(held, reply);
      conns := conns[k := conns[k].(inbound := conns[k].inbound + Encode(reply))];
      answer := Await(get, k, readOk, reply);
    }

    /** Reads the reply and hands the connection back. */
    method Await(get: bool, k: P.ConnId, readOk: bool, reply: Reply) returns (answer: P.Answer)
      requires P.Inv(Snapshot([P.Sent(get, k, reply)]))
      modifies this
      ensures Valid()
      ensures answer == if readOk then P.Expected(get, reply) else P.InfraError
    {
      ghost var sent := Snapshot([P.Sent(get, k, reply)]);
      assert P.CallerOk(sent, sent.callers[0]);
      if !readOk {
        FinishedStep(sent, P.ReadFails(0));
        PutConn(k, false);
        return P.InfraError;
      }
      P.InterpretsOwnReply(get, reply);
      FinishedStep(sent, P.Read(0, []));
      var left;
      answer, left := ReadAnswer(get, conns[k].inbound);
      conns := conns[k := conns[k].(inbound := left)];
      PutConn(k, true);
    }

    /** The two ways a reply is read. */
    method ReadAnswer(get: bool, inbound: bytes) returns (answer: P.Answer, left: bytes)
      ensures answer == P.Interpret(get, inbound).0
      ensures P.Interpret(get, inbound).1.Some? ==> left == P.Interpret(get, inbound).1.value
    {
      var reader := new Reader(inbound);
      if get {
        var g := reader.NextGet();
        answer := match g
          case Hit(v, _) => P.GetHit(v)
          case Miss(_) => P.GetMiss
          case Unexpected(_) => P.GetUnexpected
          case _ => P.InfraError;
      } else {
        var o := reader.NextReply();
        answer := if !o.Returned? then P.InfraError
          else if o.typ == ERROR then P.ServerError(o.val)
          else P.DoReply(o.typ, o.val);
      }
      left := reader.input;
    }
  }

  lemma WrittenStep(held: P.State, reply: Reply)
    requires P.Inv(held) && |held.callers| == 1 && held.callers[0].Holding?
    requires WellFormed(reply) && (held.callers[0].get ==> !(reply.Array? && reply.elems != []))
    ensures held.callers[0].conn < |held.conns|
    ensures var get, k := held.callers[0].get, held.callers[0].conn;
      P.Inv(held.(callers := [P.Sent(get, k, reply)],
                  conns := held.conns[k := held.conns[k].(inbound := held.conns[k].inbound + Encode(reply))]))
  {
    assert P.CallerOk(held, held.callers[0]);
    P.StepKeepsInv(held, P.Write(0, reply));
    var sent := P.Sent(held.callers[0].get, held.callers[0].conn, reply);
    assert held.callers[0 := sent] == [sent];
  }

  /** Once the only caller has finished, every open connection is in the pool. */
  lemma FinishedStep(s: P.State, e: P.Event)
    requires P.Inv(s) && |s.callers| == 1 && P.Enabled(s, e)
    requires e.WriteFails? || e.ReadFails? || e.Read?
    ensures P.Inv(P.Step(s, e).(callers := []))
  {
    P.StepKeepsInv(s, e);
    var s' := P.Step(s, e);
    assert |s'.callers| == 1 && s'.callers[0].Finished?;
    forall k | 0 <= k < |s'.conns| && s'.conns[k].open
      ensures k in s'.pool
    {
      assert !P.Owned(s', k);
    }
  }
}
