/** The reply parser as the program it is: a reader that advances over a connection's bytes
    (backend/internal/cache/redis_client.go, lines 119-185). It is proved equal to Resp.ReadReply. */
module RespReader {
  import opened Common
  import opened Bytes
  import opened Resp

  datatype Outcome = Returned(typ: byte, val: bytes) | Failed | Panicked

  /** The program's outcome and the bytes it left agree with the parse. */
  predicate Agrees(p: Parsed, o: Outcome, rest: bytes)
  {
    match p
    case Got(t, v, r) => o == Returned(t, v) && rest == r
    case Bad => o == Failed
    case Panics => o == Panicked
  }

  /** A buffered reader over a connection; reading past what the peer sends is an error. */
  class Reader {
    var input: bytes

    constructor (input: bytes)
      ensures this.input == input
    {
      this.input := input;
    }

    /** `ReadString('\n')` followed by `TrimRight`. */
    method NextLine() returns (line: Option<bytes>)
      modifies this
      ensures line.None? <==> ReadLine(old(input)).None?
      ensures line.Some? ==> ReadLine(old(input)) == Some((line.value, input))
      ensures |input| <= |old(input)|
    {
      var k := FindLF(input);
      if k == |input| {
        input := [];
        return None;
      }
      line := Some(TrimRight(input[..k + 1]));
      input := input[k + 1..];
    }

    /** One `Read`: some of the available bytes, at most `limit`. */
    method Read(limit: nat) returns (chunk: Option<bytes>)
      requires limit > 0
      modifies this
      ensures chunk.None? <==> old(input) == []
      ensures chunk.Some? ==> 0 < |chunk.value| <= limit && old(input) == chunk.value + input
      ensures chunk.None? ==> input == []
    {
      if input == [] {
        return None;
      }
      var n :| 0 < n <= limit && n <= |input|;
      chunk := Some(input[..n]);
      input := input[n..];
    }

    /** Fills the buffer, however the bytes are split into reads. */
    method ReadFull(buf: array<byte>) returns (ok: bool)
      modifies this, buf
      ensures ok <==> |old(input)| >= buf.Length
      ensures ok ==> buf[..] == old(input)[..buf.Length] && input == old(input)[buf.Length..]
      ensures |input| <= |old(input)|
    {
      var total := 0;
      while total < buf.Length
        invariant 0 <= total <= buf.Length
        invariant buf[..total] + input == old(input)
      {
        var chunk := Read(buf.Length - total);
        if chunk.None? {
          assert |old(input)| == total;
          return false;
        }
        ghost var done := buf[..total];
        forall i | 0 <= i < |chunk.value| {
          buf[total + i] := chunk.value[i];
        }
        assert buf[..total + |chunk.value|] == done + chunk.value;
        total := total + |chunk.value|;
      }
      assert buf[..total] == buf[..];
      ok := true;
    }

    method ReadBulkBody(n: int) returns (o: Outcome)
      modifies this
      ensures Agrees(ReadBulk(Some(n), old(input)), o, input)
      ensures |input| <= |old(input)|
    {
      if n == -1 {
        return Returned(BULK, []);
      }
      if n < 0 || n > MAX_INT - 2 {
        return Panicked;
      }
      var buf := new byte[n + 2];
      var ok := ReadFull(buf);
      if !ok {
        return Failed;
      }
      assert buf[..][..n] == buf[..n];
      o := Returned(BULK, buf[..n]);
    }

    /** The part of `GetOrNil` that reads: it parses its reply itself (lines 211-235). */
    method NextGet() returns (g: GetResult)
      modifies this
      ensures g == ReadGet(old(input))
      ensures g.Hit? || g.Miss? || g.Unexpected? ==> g.rest == input
    {
      var line := NextLine();
      if line.None? {
        return GetResult.Broken;
      }
      if line.value == [] || line.value[0] != BULK {
        return Unexpected(input);
      }
      var n := Atoi(line.value[1..]);
      if n.None? {
        return GetResult.Broken;
      }
      ghost var body := input;
      var o := ReadBulkBody(n.value);
      if o.Returned? {
        g := if n.value == -1 then Miss(input) else Hit(o.val, input);
      } else {
        g := if o.Panicked? then GetPanics else GetResult.Broken;
      }
      assert ReadGet(old(input)) == GetBody(n.value, body);
    }

    method NextReply() returns (o: Outcome)
      modifies this
      ensures Agrees(ReadReply(old(input)), o, input)
      ensures o.Returned? ==> |input| < |old(input)|
      decreases |input|, 0
    {
      var line := NextLine();
      if line.None? || line.value == [] {
        return Failed;
      }
      var typ, body := line.value[0], line.value[1..];
      if typ == SIMPLE || typ == ERROR || typ == INTEGER {
        return Returned(typ, body);
      } else if typ == BULK {
        var n := Atoi(body);
        if n.None? {
          return Failed;
        }
        o := ReadBulkBody(n.value);
      } else if typ == ARRAY {
        var n := Atoi(body);
        if n.None? || n.value <= 0 {
          return Returned(ARRAY, []);
        }
        o := NextElements(n.value);
      } else {
        o := Failed;
      }
    }

    /** Drains the elements of an array and keeps the last value. */
    method NextElements(n: nat) returns (o: Outcome)
      modifies this
      ensures Agrees(ReadElems(old(input), n, []), o, input)
      ensures o.Returned? ==> |input| <= |old(input)|
      decreases |input|, 1
    {
      var i, last := 0, [];
      while i < n
        invariant 0 <= i <= n
        invariant |input| <= |old(input)|
        invariant ReadElems(old(input), n, []) == ReadElems(input, n - i, last)
      {
        var element := NextReply();
        if !element.Returned? {
          return element;
        }
        last := element.val;
        i := i + 1;
      }
      o := Returned(ARRAY, last);
    }
  }
}
