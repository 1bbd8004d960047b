/** A WebSocket connection as the object it is: `Conn` with its frame writer, frame reader and message
    loop (backend/internal/wsserver/websocket.go, lines 84-192), proved against WebSocketFrames. */
module WebSocketConn {
  import opened Common
  import opened Bytes
  import opened WebSocketFrames

  datatype FrameResult = GotFrame(opcode: byte, payload: bytes) | NoFrame | Panicked

  datatype MessageResult = Text(payload: bytes) | Eof | Failed | Crash

  function EncodePongs(pongs: seq<bytes>): bytes
  {
    if pongs == [] then [] else EncodeFrame(PONG, pongs[0]) + EncodePongs(pongs[1..])
  }

  lemma {:induction false} EncodePongsAppend(pongs: seq<bytes>, p: bytes)
    ensures EncodePongs(pongs + [p]) == EncodePongs(pongs) + EncodeFrame(PONG, p)
  {
    if pongs == [] {
      assert ([] + [p])[1..] == [];
    } else {
      assert (pongs + [p])[1..] == pongs[1..] + [p];
      EncodePongsAppend(pongs[1..], p);
    }
  }

  lemma PongWritten(start: bytes, seen: seq<bytes>, p: bytes)
    ensures start + EncodePongs(seen) + EncodeFrame(PONG, p) == start + EncodePongs(seen + [p])
  {
    EncodePongsAppend(seen, p);
    assert start + EncodePongs(seen) + EncodeFrame(PONG, p) == start + (EncodePongs(seen) + EncodeFrame(PONG, p));
  }

  /** On the wire the pongs are frames a browser accepts, one after the other: opcode 10 and the ping's
      payload. */
  lemma PongsOnTheWire(p: bytes, more: seq<bytes>)
    requires |p| <= MAX_INT
    ensures EncodePongs([]) == []
    ensures BrowserRead(EncodePongs([p] + more)) == Some((10, p, EncodePongs(more)))
  {
    assert ([p] + more)[1..] == more;
    BrowserReadsFrame(PONG, p, EncodePongs(more));
  }

  /** What `ReadMessage` returns and leaves agrees with `Receive` on the bytes it found. */
  predicate Agrees(r: Received, m: MessageResult, rest: bytes)
  {
    match r
    case Message(p, _, left) => m == Text(p) && rest == left
    case Closed(_, left) => m == Eof && rest == left
    case Broken(_) => m == Failed
    case Crashed(_) => m == Crash
  }

  predicate FrameAgrees(r: FrameRead, f: FrameResult, rest: bytes)
  {
    match r
    case FrameOk(op, p, left) => f == GotFrame(op, p) && rest == left
    case ReadFails => f == NoFrame
    case FramePanics => f == Panicked
  }

  class Conn {
    var inbound: bytes   // unread bytes from the client
    var outbound: bytes  // bytes written to the client
    var broken: bool     // a write has failed
    ghost var writes: seq<bytes> // what each write call put on the wire
    const failAt: Option<nat>    // the write call that fails, if any
    var called: nat              // write calls so far

    constructor (inbound: bytes, failAt: Option<nat>)
      ensures this.inbound == inbound && outbound == [] && !broken && writes == []
      ensures this.failAt == failAt && called == 0
    {
      this.inbound, this.failAt := inbound, failAt;
      outbound, broken, writes, called := [], false, [], 0;
    }

    predicate FailsWithin(from: nat, to: nat)
    {
      failAt.Some? && from <= failAt.value < to
    }

    /** A write of the underlying connection: all of the bytes, or an error after some of them. */
    method Write(b: bytes) returns (ok: bool)
      modifies this`outbound, this`broken, this`writes, this`called
      ensures called == old(called) + 1 && (ok <==> !FailsWithin(old(called), called))
      ensures ok ==> outbound == old(outbound) + b && broken == old(broken) && writes == old(writes) + [b]
      ensures !ok ==> broken && old(outbound) <= outbound <= old(outbound) + b
    {
      ghost var start := outbound;
      ok := !(failAt.Some? && failAt.value == called);
      called := called + 1;
      if ok {
        outbound := outbound + b;
      } else {
        var n :| 0 <= n <= |b|;
        outbound, broken := outbound + b[..n], true;
        assert b == b[..n] + b[n..];
      }
      writes := writes + [outbound[|start|..]];
    }

    /** One unmasked frame: the header, then the payload, in two writes. If one of them fails, a part
        of the frame has been sent. */
    method WriteFrame(opcode: byte, payload: bytes) returns (ok: bool)
      requires opcode < 16
      modifies this`outbound, this`broken, this`writes, this`called
      ensures ok <==> !FailsWithin(old(called), old(called) + 2)
      ensures ok ==> called == old(called) + 2
      ensures ok ==> outbound == old(outbound) + EncodeFrame(opcode, payload) && broken == old(broken)
      ensures ok ==> writes == old(writes) + [Header(opcode, false, |payload|), payload]
      ensures !ok ==> broken && old(outbound) <= outbound <= old(outbound) + EncodeFrame(opcode, payload)
    {
      var n := |payload|;
      var header: bytes;
      if n <= 125 {
        header := [0x80 + opcode, n];
      } else if n <= 65535 {
        header := [0x80 + opcode, 126] + BigEndian(2, n);
      } else {
        header := [0x80 + opcode, 127] + BigEndian(8, n);
      }
      assert header == Header(opcode, false, n);
      assert old(outbound) + header + payload == old(outbound) + EncodeFrame(opcode, payload);
      ok := Write(header);
      if !ok {
        return;
      }
      ok := Write(payload);
    }

    /** `io.ReadFull`: exactly `n` bytes or an error. */
    method Take(n: nat) returns (b: Option<bytes>)
      modifies this`inbound
      ensures b.Some? <==> |old(inbound)| >= n
      ensures b.Some? ==> b.value == old(inbound)[..n] && inbound == old(inbound)[n..]
      ensures |inbound| <= |old(inbound)|
    {
      if |inbound| < n {
        inbound := [];
        return None;
      }
      b := Some(inbound[..n]);
      inbound := inbound[n..];
    }

    /** Unmasks a payload in place. */
    method Unmask(payload: array<byte>, key: bytes)
      requires |key| == 4
      modifies payload
      ensures payload[..] == Mask(key, old(payload[..]))
    {
      var i := 0;
      while i < payload.Length
        invariant 0 <= i <= payload.Length
        invariant forall j | 0 <= j < i :: payload[j] == Xor(old(payload[j]), key[j % 4])
        invariant forall j | i <= j < payload.Length :: payload[j] == old(payload[j])
      {
        payload[i] := Xor(payload[i], key[i % 4]);
        i := i + 1;
      }
    }

    method ReadFrame() returns (f: FrameResult)
      modifies this`inbound
      ensures FrameAgrees(ParseFrame(old(inbound)), f, inbound)
      ensures f.GotFrame? ==> |inbound| < |old(inbound)|
    {
      var head := Take(2);
      if head.None? {
        return NoFrame;
      }
      var opcode, masked, code := head.value[0] % 16, head.value[1] >= 128, head.value[1] % 128;
      var length: int := code;
      if code == 126 || code == 127 {
        var ext := Take(if code == 126 then 2 else 8);
        if ext.None? {
          return NoFrame;
        }
        length := BigEndianValue(ext.value);
        assert ext.value == old(inbound)[2..2 + ExtensionSize(code)];
      }
      assert length == Announced(code, old(inbound)[2..2 + ExtensionSize(code)]);
      assert inbound == old(inbound)[2 + ExtensionSize(code)..];
      f := ReadBody(opcode, masked, length);
    }

    /** The rest of `readFrame` once opcode, mask bit and length are known. */
    method ReadBody(opcode: byte, masked: bool, length: int) returns (f: FrameResult)
      modifies this`inbound
      ensures FrameAgrees(ParseBody(opcode, masked, length, old(inbound)), f, inbound)
      ensures |inbound| <= |old(inbound)|
    {
      var key := [0, 0, 0, 0];
      if masked {
        var k := Take(4);
        if k.None? {
          return NoFrame;
        }
        key := k.value;
      }
      if length < 0 || length > MAX_INT {
        return Panicked;
      }
      var data := Take(length);
      if data.None? {
        return NoFrame;
      }
      var payload := new byte[length](i requires 0 <= i < |data.value| => data.value[i]);
      assert payload[..] == data.value;
      if masked {
        Unmask(payload, key);
      }
      f := GotFrame(opcode, payload[..]);
    }

    /** One turn of the message loop: reads a frame, and unless it ends the call, answers it if it is
        a ping. `due` is what the unread bytes call for, `next` what those after the turn do. */
    method Turn(ghost due: Received) returns (m: Option<MessageResult>, ping: Option<bytes>, ghost next: Received)
      requires !broken && due == Receive(inbound)
      modifies this
      ensures broken ==> m == Some(Failed) && due.pongs != [] && FailsWithin(old(called), old(called) + 2)
      ensures !broken ==> called == old(called) + (if ping.Some? then 2 else 0) && !FailsWithin(old(called), called)
      ensures !broken && m.Some? ==> Agrees(due, m.value, inbound) && due.pongs == [] && ping.None? && outbound == old(outbound)
      ensures m.None? ==> !broken && |inbound| < |old(inbound)| && next == Receive(inbound)
      ensures m.None? && ping.None? ==> due == next && outbound == old(outbound)
      ensures m.None? && ping.Some? ==>
        due == Answering(ping.value, next) && outbound == old(outbound) + EncodeFrame(PONG, ping.value)
    {
      m, ping, next := None, None, due;
      var f := ReadFrame();
      if f.NoFrame? {
        m := Some(Failed);
      } else if f.Panicked? {
        m := Some(Crash);
      } else if f.opcode == TEXT {
        m := Some(Text(f.payload));
      } else if f.opcode == CLOSE {
        m := Some(Eof);
      } else {
        next := Receive(inbound);
        if f.opcode == PING {
          var ok := WriteFrame(PONG, f.payload);
          if ok {
            ping := Some(f.payload);
          } else {
            m := Some(Failed);
          }
        }
      }
    }

    /** The message loop. `due` is what the unread bytes call for, `seen` the pings answered. With every
        write succeeding, the outcome, the unread bytes and the pongs written are exactly those due. A
        write error is reported exactly when one of the writes of those pongs, two for each, fails. */
    method ReadMessage(ghost due: Received) returns (m: MessageResult, ghost seen: seq<bytes>)
      requires !broken && due == Receive(inbound)
      modifies this
      ensures !broken ==> Agrees(due, m, inbound)
      ensures !broken ==> seen == due.pongs && outbound == old(outbound) + EncodePongs(seen)
      ensures broken ==> m == Failed
      ensures broken <==> FailsWithin(old(called), old(called) + 2 * |due.pongs|)
    {
      seen := [];
      ghost var left := due;
      while true
        invariant !broken
        invariant outbound == old(outbound) + EncodePongs(seen)
        invariant left == Receive(inbound) && due == AnsweringAll(seen, left)
        invariant called == old(called) + 2 * |seen| && !FailsWithin(old(called), called)
        decreases |inbound|
      {
        var ended, ping;
        ghost var next;
        ended, ping, next := Turn(left);
        if ended.Some? {
          if !broken {
            EndsAfter(seen, left, ended.value, inbound);
          }
          return ended.value, seen;
        }
        if ping.Some? {
          AnswersOneMore(seen, ping.value, next);
          PongWritten(old(outbound), seen, ping.value);
          seen := seen + [ping.value];
        }
        left := next;
      }
    }
  }

  lemma EndsAfter(seen: seq<bytes>, r: Received, m: MessageResult, rest: bytes)
    requires Agrees(r, m, rest) && r.pongs == []
    ensures Agrees(AnsweringAll(seen, r), m, rest) && AnsweringAll(seen, r).pongs == seen
  {
  }

  lemma AnswersOneMore(seen: seq<bytes>, ping: bytes, r: Received)
    ensures AnsweringAll(seen, Answering(ping, r)) == AnsweringAll(seen + [ping], r)
  {
    assert seen + ([ping] + r.pongs) == seen + [ping] + r.pongs;
  }

  /** The outcome a stream calls for. */
  lemma OwedMeans(frames: seq<Frame>, tail: bytes, due: Received, m: MessageResult, rest: bytes)
    requires AllWellFormed(frames) && FirstEnd(frames) < |frames| && due == Owed(frames, tail)
    ensures due.pongs == Pings(frames[..FirstEnd(frames)])
    ensures Agrees(due, m, rest) ==>
      && m == (if frames[FirstEnd(frames)].opcode == TEXT then Text(frames[FirstEnd(frames)].payload) else Eof)
      && rest == Stream(frames[FirstEnd(frames) + 1..]) + tail
  {
  }

  /** The connection object on a stream of well-formed client frames: one call of `ReadMessage`
      returns the first text message or EOF, having written one pong per ping before it, and leaves
      the rest of the stream for the next call. It reports an error only if a write of a pong fails. */
  method ReadFromStream(c: Conn, frames: seq<Frame>, tail: bytes)
    returns (m: MessageResult, ghost i: nat, ghost pings: seq<bytes>)
    requires AllWellFormed(frames) && FirstEnd(frames) < |frames|
    requires c.inbound == Stream(frames) + tail && !c.broken
    modifies c
    ensures i == FirstEnd(frames) && pings == Pings(frames[..i])
    ensures c.broken <==> c.FailsWithin(old(c.called), old(c.called) + 2 * |pings|)
    ensures c.broken ==> m == Failed
    ensures !c.broken ==>
      && m == (if frames[i].opcode == TEXT then Text(frames[i].payload) else Eof)
      && c.outbound == old(c.outbound) + EncodePongs(pings)
      && c.inbound == Stream(frames[i + 1..]) + tail
  {
    i := FirstEnd(frames);
    ghost var due := Owed(frames, tail);
    ReceivesFirstMessage(frames, tail, c.inbound);
    pings := due.pongs;
    ghost var seen;
    m, seen := c.ReadMessage(due);
    OwedMeans(frames, tail, due, m, c.inbound);
  }
}
