/** The RESP2 codec of the Redis client (backend/internal/cache/redis_client.go, lines 109-185):
    what a server's reply looks like on the wire, and what the client's parser makes of it. */
module Resp {
  import opened Common
  import opened Bytes

  const SIMPLE: byte := 43  // '+'
  const ERROR: byte := 45   // '-'
  const INTEGER: byte := 58 // ':'
  const BULK: byte := 36    // '$'
  const ARRAY: byte := 42   // '*'

  /** A reply as the Redis serialization protocol defines it. */
  datatype Reply =
    | Simple(text: bytes)
    | Error(message: bytes)
    | Integer(n: int)
    | Bulk(data: bytes)
    | NilBulk
    | Array(elems: seq<Reply>)
    | NilArray

  predicate OneLine(s: bytes)
  {
    CR !in s && LF !in s
  }

  predicate WellFormed(r: Reply)
  {
    match r
    case Simple(t) => OneLine(t)
    case Error(t) => OneLine(t)
    case Integer(n) => -MAX_INT - 1 <= n <= MAX_INT
    case Bulk(d) => |d| <= MAX_INT - 2
    case Array(es) => |es| <= MAX_INT && forall e | e in es :: WellFormed(e)
    case _ => true
  }

  function Encode(r: Reply): (s: bytes)
    ensures s != []
  {
    match r
    case Simple(t) => Line(SIMPLE, t)
    case Error(t) => Line(ERROR, t)
    case Integer(n) => Line(INTEGER, Itoa(n))
    case Bulk(d) => EncodeBulk(d)
    case NilBulk => Line(BULK, Itoa(-1))
    case Array(es) => Line(ARRAY, Itoa(|es|)) + EncodeAll(es)
    case NilArray => Line(ARRAY, Itoa(-1))
  }

  function Line(typ: byte, body: bytes): (s: bytes)
    ensures s != []
  {
    [typ] + body + CRLF
  }

  function EncodeBulk(d: bytes): (s: bytes)
    ensures s != []
  {
    Line(BULK, Itoa(|d|)) + d + CRLF
  }

  function EncodeAll(es: seq<Reply>): bytes
  {
    if es == [] then [] else Encode(es[0]) + EncodeAll(es[1..])
  }

  /** The type byte and the string `readReply` promises for a reply: of an array, the last element. */
  function TypeOf(r: Reply): byte
  {
    match r
    case Simple(_) => SIMPLE
    case Error(_) => ERROR
    case Integer(_) => INTEGER
    case Bulk(_) => BULK
    case NilBulk => BULK
    case Array(_) => ARRAY
    case NilArray => ARRAY
  }

  function ValueOf(r: Reply): bytes
  {
    match r
    case Simple(t) => t
    case Error(t) => t
    case Integer(n) => Itoa(n)
    case Bulk(d) => d
    case Array(es) => if es == [] then [] else ValueOf(es[|es| - 1])
    case _ => []
  }

  // ---- the client's parser, on the unread bytes ----

  datatype Parsed =
    | Got(typ: byte, val: bytes, rest: bytes)
    | Bad     // an error is returned
    | Panics  // a bulk length that make or the slice expression rejects

  /** `readLine`: up to and including the next LF, with trailing CR and LF trimmed. */
  function ReadLine(s: bytes): (r: Option<(bytes, bytes)>)
    ensures r.Some? ==> |r.value.1| < |s|
  {
    var k := FindLF(s);
    if k == |s| then None else Some((TrimRight(s[..k + 1]), s[k + 1..]))
  }

  function FindLF(s: bytes): (k: nat)
    ensures k <= |s|
    ensures LF !in s[..k] && (k < |s| ==> s[k] == LF)
  {
    if s == [] || s[0] == LF then 0 else
      var k := FindLF(s[1..]);
      assert s[..k + 1] == [s[0]] + s[1..][..k];
      k + 1
  }

  function TrimRight(s: bytes): bytes
  {
    if s != [] && (s[|s| - 1] == CR || s[|s| - 1] == LF) then TrimRight(s[..|s| - 1]) else s
  }

  /** What is trimmed is all CR and LF, and nothing more could be. */
  lemma {:induction false} TrimRightTrims(s: bytes)
    ensures var t := TrimRight(s);
      && t <= s && (t == [] || (t[|t| - 1] != CR && t[|t| - 1] != LF))
      && forall i | |t| <= i < |s| :: s[i] == CR || s[i] == LF
  {
    if s != [] && (s[|s| - 1] == CR || s[|s| - 1] == LF) {
      TrimRightTrims(s[..|s| - 1]);
    }
  }

  function ReadReply(s: bytes): (r: Parsed)
    ensures r.Got? ==> |r.rest| < |s|
    decreases |s|, 0
  {
    match ReadLine(s)
    case None => Bad
    case Some((line, rest)) =>
      if line == [] then Bad
      else
        var typ, body := line[0], line[1..];
        if typ == SIMPLE || typ == ERROR || typ == INTEGER then Got(typ, body, rest)
        else if typ == BULK then ReadBulk(Atoi(body), rest)
        else if typ == ARRAY then
          match Atoi(body)
          case None => Got(ARRAY, [], rest)
          case Some(n) => if n <= 0 then Got(ARRAY, [], rest) else ReadElems(rest, n, [])
        else Bad
  }

  function ReadBulk(length: Option<int>, s: bytes): (r: Parsed)
    ensures r.Got? ==> |r.rest| <= |s|
  {
    match length
    case None => Bad
    case Some(n) =>
      if n == -1 then Got(BULK, [], s)
      else if n < 0 || n > MAX_INT - 2 then Panics
      else if |s| < n + 2 then Bad
      else Got(BULK, s[..n], s[n + 2..])
  }

  /** The loop over the elements of an array: `last` is the value of the one before. */
  function ReadElems(s: bytes, n: nat, last: bytes): (r: Parsed)
    ensures r.Got? ==> |r.rest| <= |s|
    decreases |s|, 1, n
  {
    if n == 0 then Got(ARRAY, last, s)
    else
      match ReadReply(s)
      case Got(_, v, rest) => ReadElems(rest, n - 1, v)
      case other => other
  }

  // ---- the parser consumes exactly one reply ----

  lemma {:induction false} FindLFAfter(t: bytes, rest: bytes)
    requires LF !in t
    ensures FindLF(t + [LF] + rest) == |t|
  {
    var s := t + [LF] + rest;
    if t != [] {
      assert s[1..] == t[1..] + [LF] + rest;
      FindLFAfter(t[1..], rest);
    }
  }

  lemma ReadLineAfter(t: bytes, rest: bytes)
    requires OneLine(t)
    ensures ReadLine(t + CRLF + rest) == Some((t, rest))
  {
    var s := t + CRLF + rest;
    assert s == (t + [CR]) + [LF] + rest;
    FindLFAfter(t + [CR], rest);
    assert s[..|t| + 2] == t + CRLF;
    assert (t + CRLF)[..|t| + 1] == t + [CR];
    assert (t + [CR])[..|t|] == t;
    assert TrimRight(t + CRLF) == TrimRight(t + [CR]) == TrimRight(t) == t;
  }

  lemma ReadHeader(typ: byte, body: bytes, rest: bytes)
    requires OneLine(body) && typ != CR && typ != LF
    ensures ReadLine(Line(typ, body) + rest) == Some(([typ] + body, rest))
    ensures ([typ] + body)[0] == typ && ([typ] + body)[1..] == body
  {
    ReadLineAfter([typ] + body, rest);
  }

  /** A header line holding a number. */
  lemma ReadNumber(typ: byte, n: int, rest: bytes)
    requires typ != CR && typ != LF && -MAX_INT - 1 <= n <= MAX_INT
    ensures ReadLine(Line(typ, Itoa(n)) + rest) == Some(([typ] + Itoa(n), rest))
    ensures ([typ] + Itoa(n))[0] == typ && Atoi(([typ] + Itoa(n))[1..]) == Some(n)
  {
    ItoaClean(n);
    AtoiInvertsItoa(n);
    ReadHeader(typ, Itoa(n), rest);
  }

  lemma BulkParts(d: bytes, rest: bytes)
    ensures EncodeBulk(d) + rest == Line(BULK, Itoa(|d|)) + (d + CRLF + rest)
    ensures (d + CRLF + rest)[..|d|] == d
    ensures (d + CRLF + rest)[|d|..|d| + 2] == CRLF
    ensures (d + CRLF + rest)[|d| + 2..] == rest
  {
    assert EncodeBulk(d) + rest == Line(BULK, Itoa(|d|)) + (d + CRLF + rest);
  }

  lemma ReadBulkInvertsEncode(d: bytes, rest: bytes)
    requires |d| <= MAX_INT - 2
    ensures ReadReply(EncodeBulk(d) + rest) == Got(BULK, d, rest)
  {
    BulkParts(d, rest);
    ReadNumber(BULK, |d|, d + CRLF + rest);
  }

  lemma ReadArrayHeader(n: int, s: bytes)
    requires -1 <= n <= MAX_INT
    ensures ReadReply(Line(ARRAY, Itoa(n)) + s) == if n <= 0 then Got(ARRAY, [], s) else ReadElems(s, n, [])
  {
    ReadNumber(ARRAY, n, s);
  }

  /** For every well-formed reply followed by any bytes, the parser returns that reply's value and
      leaves exactly those bytes. */
  lemma {:induction false} ReadReplyInvertsEncode(r: Reply, rest: bytes)
    requires WellFormed(r)
    ensures ReadReply(Encode(r) + rest) == Got(TypeOf(r), ValueOf(r), rest)
    decreases r
  {
    match r {
      case Simple(t) => ReadHeader(SIMPLE, t, rest);
      case Error(t) => ReadHeader(ERROR, t, rest);
      case Integer(n) =>
        ItoaClean(n);
        ReadHeader(INTEGER, Itoa(n), rest);
      case Bulk(d) => ReadBulkInvertsEncode(d, rest);
      case NilBulk => ReadNumber(BULK, -1, rest);
      case Array(es) =>
        Associative(Line(ARRAY, Itoa(|es|)), EncodeAll(es), rest);
        ReadArrayHeader(|es|, EncodeAll(es) + rest);
        ReadElemsInvertsEncode(es, rest, []);
      case NilArray => ReadArrayHeader(-1, rest);
    }
  }

  lemma {:induction false} ReadElemsInvertsEncode(es: seq<Reply>, rest: bytes, last: bytes)
    requires forall e | e in es :: WellFormed(e)
    ensures ReadElems(EncodeAll(es) + rest, |es|, last)
         == Got(ARRAY, if es == [] then last else ValueOf(es[|es| - 1]), rest)
    decreases es
  {
    if es == [] {
      assert EncodeAll(es) + rest == rest;
    } else {
      assert EncodeAll(es) + rest == Encode(es[0]) + (EncodeAll(es[1..]) + rest);
      ReadReplyInvertsEncode(es[0], EncodeAll(es[1..]) + rest);
      ReadElemsInvertsEncode(es[1..], rest, ValueOf(es[0]));
    }
  }

  // ---- a reply that is cut off is an error ----

  lemma NoLineYet(s: bytes)
    requires LF !in s
    ensures ReadReply(s) == Bad
  {
    assert FindLF(s) == |s|;
  }

  lemma CutHeader(typ: byte, body: bytes, k: nat)
    requires OneLine(body) && typ != LF && k < |Line(typ, body)|
    ensures ReadReply(Line(typ, body)[..k]) == Bad
  {
    var s := Line(typ, body)[..k];
    assert s == ([typ] + body + [CR])[..k];
    NoLineYet(s);
  }

  /** The part of a cut sequence after a header that arrived whole. */
  lemma CutAfter(h: bytes, t: bytes, k: nat)
    requires |h| <= k < |h| + |t|
    ensures (h + t)[..k] == h + t[..k - |h|]
  {
  }

  lemma CutWithin(h: bytes, t: bytes, k: nat)
    requires k <= |h|
    ensures (h + t)[..k] == h[..k]
  {
  }

  lemma CutBulk(d: bytes, k: nat)
    requires |d| <= MAX_INT - 2 && k < |EncodeBulk(d)|
    ensures ReadReply(EncodeBulk(d)[..k]) == Bad
  {
    var h, t := Line(BULK, Itoa(|d|)), d + CRLF;
    assert EncodeBulk(d) == h + t;
    if k < |h| {
      CutWithin(h, t, k);
      ItoaClean(|d|);
      CutHeader(BULK, Itoa(|d|), k);
    } else {
      CutAfter(h, t, k);
      ReadNumber(BULK, |d|, t[..k - |h|]);
    }
  }

  /** Of a well-formed reply, every proper prefix is a read error: a lost connection is never taken for
      an answer. */
  lemma {:induction false} CutReplyIsBad(r: Reply, k: nat)
    requires WellFormed(r) && k < |Encode(r)|
    ensures ReadReply(Encode(r)[..k]) == Bad
    decreases r
  {
    match r {
      case Simple(t) => CutHeader(SIMPLE, t, k);
      case Error(t) => CutHeader(ERROR, t, k);
      case Integer(n) =>
        ItoaClean(n);
        CutHeader(INTEGER, Itoa(n), k);
      case Bulk(d) => CutBulk(d, k);
      case NilBulk =>
        ItoaClean(-1);
        CutHeader(BULK, Itoa(-1), k);
      case NilArray =>
        ItoaClean(-1);
        CutHeader(ARRAY, Itoa(-1), k);
      case Array(es) =>
        var h := Line(ARRAY, Itoa(|es|));
        if k < |h| {
          CutWithin(h, EncodeAll(es), k);
          ItoaClean(|es|);
          CutHeader(ARRAY, Itoa(|es|), k);
        } else {
          CutAfter(h, EncodeAll(es), k);
          ReadArrayHeader(|es|, EncodeAll(es)[..k - |h|]);
          CutElemsAreBad(es, k - |h|, []);
        }
    }
  }

  lemma ElemsStep(s: bytes, n: nat, last: bytes)
    requires n > 0
    ensures ReadElems(s, n, last) ==
      match ReadReply(s)
      case Got(_, v, rest) => ReadElems(rest, n - 1, v)
      case other => other
  {
  }

  lemma CutInHead(e: Reply, t: bytes, n: nat, last: bytes, k: nat)
    requires n > 0 && k <= |Encode(e)| && ReadReply(Encode(e)[..k]) == Bad
    ensures ReadElems((Encode(e) + t)[..k], n, last) == Bad
  {
    CutWithin(Encode(e), t, k);
    ElemsStep(Encode(e)[..k], n, last);
  }

  lemma CutInTail(e: Reply, t: bytes, n: nat, last: bytes, k: nat)
    requires n > 0 && WellFormed(e) && |Encode(e)| <= k < |Encode(e)| + |t|
    requires ReadElems(t[..k - |Encode(e)|], n - 1, ValueOf(e)) == Bad
    ensures ReadElems((Encode(e) + t)[..k], n, last) == Bad
  {
    var h, rest := Encode(e), t[..k - |Encode(e)|];
    CutAfter(h, t, k);
    ReadReplyInvertsEncode(e, rest);
    ElemsStep(h + rest, n, last);
  }

  lemma {:induction false} CutElemsAreBad(es: seq<Reply>, k: nat, last: bytes)
    requires (forall e | e in es :: WellFormed(e)) && k < |EncodeAll(es)|
    ensures ReadElems(EncodeAll(es)[..k], |es|, last) == Bad
    decreases es
  {
    var e, t := es[0], EncodeAll(es[1..]);
    if k < |Encode(e)| {
      CutReplyIsBad(e, k);
      CutInHead(e, t, |es|, last, k);
    } else {
      CutElemsAreBad(es[1..], k - |Encode(e)|, ValueOf(e));
      CutInTail(e, t, |es|, last, k);
    }
  }

  /** Lines that are no reply: an unknown type byte, a bulk length that is no number, an empty line. GET
      gives the connection up for the second and keeps it, with an error, for the others. */
  lemma MalformedIsError(typ: byte, body: bytes, i: nat, rest: bytes)
    requires OneLine(body) && typ != CR && typ != LF
    requires typ == BULK ==> 0 < i < |body| && !IsDigit(body[i])
    requires typ !in [SIMPLE, ERROR, INTEGER, ARRAY]
    ensures ReadReply(Line(typ, body) + rest) == Bad
    ensures ReadGet(Line(typ, body) + rest) == if typ == BULK then Broken else Unexpected(rest)
    ensures ReadReply(CRLF + rest) == Bad && ReadGet(CRLF + rest) == Unexpected(rest)
  {
    ReadHeader(typ, body, rest);
    ReadLineAfter([], rest);
    assert [] + CRLF + rest == CRLF + rest;
    if typ == BULK {
      AtoiRejects(body, i);
    }
  }

  /** The type returned is the reply's first byte. */
  lemma TypeIsFirstByte(r: Reply)
    ensures TypeOf(r) == Encode(r)[0]
  {
  }

  /** Replies as the protocol writes them, byte for byte: +OK, -ERR, :12, a bulk string and the two
      nils. Of an array the value is that of the last element. */
  lemma RepliesOnTheWire()
    ensures Encode(Simple([79, 75])) == [43, 79, 75, 13, 10]
    ensures Encode(Error([69, 82, 82])) == [45, 69, 82, 82, 13, 10]
    ensures Encode(Integer(12)) == [58, 49, 50, 13, 10]
    ensures Encode(Bulk([13, 10])) == [36, 50, 13, 10, 13, 10, 13, 10]
    ensures Encode(NilBulk) == [36, 45, 49, 13, 10] && Encode(NilArray) == [42, 45, 49, 13, 10]
    ensures Encode(Array([])) == [42, 48, 13, 10]
    ensures ValueOf(Array([NilBulk, Bulk([98])])) == [98]
  {
    NumbersOnTheWire();
    assert EncodeAll([]) == [];
    assert [NilBulk, Bulk([98])][1] == Bulk([98]);
  }

  lemma NumbersOnTheWire()
    ensures Itoa(12) == [49, 50] && Itoa(2) == [50] && Itoa(-1) == [45, 49] && Itoa(0) == [48]
    ensures Itoa(1) == [49] && Itoa(4) == [52]
  {
    assert Digits(1) == [49];
  }

  /** PING, byte for byte. */
  lemma CommandOnTheWire()
    ensures EncodeCommand([[80, 73, 78, 71]]) == [42, 49, 13, 10, 36, 52, 13, 10, 80, 73, 78, 71, 13, 10]
  {
    NumbersOnTheWire();
    var args := [[80, 73, 78, 71]];
    assert EncodeBulk(args[0]) == [36, 52, 13, 10, 80, 73, 78, 71, 13, 10];
    assert EncodeArgs(args) == EncodeBulk(args[0]) + EncodeArgs(args[1..]);
    assert EncodeArgs(args[1..]) == [];
    assert Line(ARRAY, Itoa(|args|)) == [42, 49, 13, 10];
  }

  // ---- GetOrNil reads its reply itself ----

  datatype GetResult =
    | Hit(value: bytes, rest: bytes)
    | Miss(rest: bytes)
    | Unexpected(rest: bytes) // an error, but the connection goes back to the pool
    | Broken                  // the connection is closed
    | GetPanics

  function ReadGet(s: bytes): GetResult
  {
    match ReadLine(s)
    case None => Broken
    case Some((line, rest)) =>
      if line == [] || line[0] != BULK then Unexpected(rest)
      else
        match Atoi(line[1..])
        case None => Broken
        case Some(n) => GetBody(n, rest)
  }

  function GetBody(n: int, s: bytes): GetResult
  {
    if n == -1 then Miss(s)
    else
      match ReadBulk(Some(n), s)
      case Got(_, v, rest) => Hit(v, rest)
      case Bad => Broken
      case Panics => GetPanics
  }

  /** What a GET returns for a reply: a bulk string is a hit, a nil one a miss, anything else an
      error that keeps the connection. */
  function GetOf(r: Reply, rest: bytes): GetResult
  {
    match r
    case Bulk(d) => Hit(d, rest)
    case NilBulk => Miss(rest)
    case Array(es) => Unexpected(EncodeAll(es) + rest)
    case _ => Unexpected(rest)
  }

  lemma ReadGetBulk(d: bytes, rest: bytes)
    requires |d| <= MAX_INT - 2
    ensures ReadGet(EncodeBulk(d) + rest) == Hit(d, rest)
  {
    BulkParts(d, rest);
    ReadNumber(BULK, |d|, d + CRLF + rest);
  }

  lemma ReadGetOther(typ: byte, body: bytes, rest: bytes)
    requires OneLine(body) && typ != CR && typ != LF && typ != BULK
    ensures ReadGet(Line(typ, body) + rest) == Unexpected(rest)
  {
    ReadHeader(typ, body, rest);
  }

  lemma Associative(a: bytes, b: bytes, c: bytes)
    ensures a + b + c == a + (b + c)
  {
  }

  lemma ReadGetNil(rest: bytes)
    ensures ReadGet(Line(BULK, Itoa(-1)) + rest) == Miss(rest)
  {
    ReadNumber(BULK, -1, rest);
  }

  lemma ReadGetArray(es: seq<Reply>, rest: bytes)
    ensures ReadGet(Line(ARRAY, Itoa(|es|)) + EncodeAll(es) + rest) == Unexpected(EncodeAll(es) + rest)
  {
    Associative(Line(ARRAY, Itoa(|es|)), EncodeAll(es), rest);
    ItoaClean(|es|);
    ReadGetOther(ARRAY, Itoa(|es|), EncodeAll(es) + rest);
  }

  lemma ReadGetReads(r: Reply, rest: bytes)
    requires WellFormed(r)
    ensures ReadGet(Encode(r) + rest) == GetOf(r, rest)
  {
    match r {
      case Bulk(d) => ReadGetBulk(d, rest);
      case Array(es) => ReadGetArray(es, rest);
      case Simple(t) => ReadGetOther(SIMPLE, t, rest);
      case Error(t) => ReadGetOther(ERROR, t, rest);
      case Integer(n) =>
        ItoaClean(n);
        ReadGetOther(INTEGER, Itoa(n), rest);
      case NilBulk => ReadGetNil(rest);
      case NilArray =>
        ItoaClean(-1);
        ReadGetOther(ARRAY, Itoa(-1), rest);
    }
  }

  lemma NoLineForGet(s: bytes)
    requires LF !in s
    ensures ReadGet(s) == Broken
  {
    assert FindLF(s) == |s|;
  }

  lemma CutHeaderForGet(typ: byte, body: bytes, k: nat)
    requires OneLine(body) && typ != LF && k < |Line(typ, body)|
    ensures ReadGet(Line(typ, body)[..k]) == Broken
  {
    var s := Line(typ, body)[..k];
    assert s == ([typ] + body + [CR])[..k];
    NoLineForGet(s);
  }

  /** A reply cut off is an error for GET too, and the connection is given up. */
  lemma CutGetIsBroken(r: Reply, k: nat)
    requires WellFormed(r) && !(r.Array? && r.elems != []) && k < |Encode(r)|
    ensures ReadGet(Encode(r)[..k]) == Broken
  {
    match r {
      case Simple(t) => CutHeaderForGet(SIMPLE, t, k);
      case Error(t) => CutHeaderForGet(ERROR, t, k);
      case Integer(n) =>
        ItoaClean(n);
        CutHeaderForGet(INTEGER, Itoa(n), k);
      case Bulk(d) => CutBulkForGet(d, k);
      case NilBulk =>
        ItoaClean(-1);
        CutHeaderForGet(BULK, Itoa(-1), k);
      case NilArray =>
        ItoaClean(-1);
        CutHeaderForGet(ARRAY, Itoa(-1), k);
      case Array(es) =>
        assert Encode(r) == Line(ARRAY, Itoa(0));
        ItoaClean(0);
        CutHeaderForGet(ARRAY, Itoa(0), k);
    }
  }

  lemma CutBulkForGet(d: bytes, k: nat)
    requires |d| <= MAX_INT - 2 && k < |EncodeBulk(d)|
    ensures ReadGet(EncodeBulk(d)[..k]) == Broken
  {
    var h, t := Line(BULK, Itoa(|d|)), d + CRLF;
    assert EncodeBulk(d) == h + t;
    if k < |h| {
      CutWithin(h, t, k);
      ItoaClean(|d|);
      CutHeaderForGet(BULK, Itoa(|d|), k);
    } else {
      CutAfter(h, t, k);
      ReadNumber(BULK, |d|, t[..k - |h|]);
    }
  }

  /** GET leaves its connection in step with the server exactly when the reply is not a non-empty
      array: of such a reply only the first line is consumed. */
  lemma GetStaysInStep(r: Reply, rest: bytes)
    requires WellFormed(r)
    ensures var g := ReadGet(Encode(r) + rest);
      && (g.Hit? || g.Miss? || g.Unexpected?)
      && (g.rest == rest <==> !(r.Array? && r.elems != []))
  {
    ReadGetReads(r, rest);
    if r.Array? && r.elems != [] {
      assert |EncodeAll(r.elems)| > 0;
    } else if r.Array? {
      assert EncodeAll(r.elems) + rest == rest;
    }
  }

  /** A concrete reply that puts it out of step. */
  lemma GetArrayReplyLeavesBytes()
    ensures ReadGet(Encode(Array([NilBulk])) + []) == Unexpected(Encode(NilBulk))
  {
    var r := Array([NilBulk]);
    ReadGetReads(r, []);
    assert EncodeAll(r.elems) + [] == Encode(NilBulk) + EncodeAll([]) == Encode(NilBulk);
  }

  // ---- commands ----

  function EncodeArgs(args: seq<bytes>): bytes
  {
    if args == [] then [] else EncodeBulk(args[0]) + EncodeArgs(args[1..])
  }

  function EncodeCommand(args: seq<bytes>): bytes
  {
    Line(ARRAY, Itoa(|args|)) + EncodeArgs(args)
  }

  lemma ArgAppended(b: bytes, args: seq<bytes>, i: nat)
    requires i < |args|
    ensures b + [BULK] + Itoa(|args[i]|) + CRLF + args[i] + CRLF + EncodeArgs(args[i + 1..]) == b + EncodeArgs(args[i..])
  {
    var a, more := args[i], EncodeArgs(args[i + 1..]);
    assert args[i..][0] == a && args[i..][1..] == args[i + 1..];
    assert EncodeArgs(args[i..]) == EncodeBulk(a) + more;
    assert b + [BULK] + Itoa(|a|) + CRLF + a + CRLF == b + EncodeBulk(a);
    assert b + EncodeBulk(a) + more == b + (EncodeBulk(a) + more);
  }

  /** `writeCommand` builds the bytes of one command. */
  method WriteCommand(args: seq<bytes>) returns (b: bytes)
    ensures b == EncodeCommand(args)
  {
    b := [ARRAY] + Itoa(|args|) + CRLF;
    var i := 0;
    assert args[0..] == args;
    while i < |args|
      invariant 0 <= i <= |args|
      invariant b + EncodeArgs(args[i..]) == EncodeCommand(args)
    {
      ArgAppended(b, args, i);
      b := b + [BULK] + Itoa(|args[i]|) + CRLF + args[i] + CRLF;
      i := i + 1;
    }
  }

  /** How a server reads a command: an array of bulk strings. It is strict where the client's parser is
      lenient: lines end in CR LF, lengths are plain decimal without sign or leading zero. */
  function ParseCommand(s: bytes): Option<(seq<bytes>, bytes)>
  {
    match ServerHeader(s, 42)
    case None => None
    case Some((n, rest)) => ParseArgs(rest, n)
  }

  function ParseArgs(s: bytes, n: nat): Option<(seq<bytes>, bytes)>
    decreases n
  {
    if n == 0 then Some(([], s))
    else
      match ParseArg(s)
      case None => None
      case Some((arg, rest)) =>
        match ParseArgs(rest, n - 1)
        case None => None
        case Some((args, rest')) => Some(([arg] + args, rest'))
  }

  function ParseArg(s: bytes): Option<(bytes, bytes)>
  {
    match ServerHeader(s, 36)
    case None => None
    case Some((n, rest)) =>
      if |rest| < n + 2 || rest[n] != 13 || rest[n + 1] != 10 then None else Some((rest[..n], rest[n + 2..]))
  }

  /** A line with a type byte and a length. */
  function ServerHeader(s: bytes, typ: byte): Option<(nat, bytes)>
  {
    var k := FindCR(s);
    if k < 2 || k + 1 >= |s| || s[k + 1] != 10 || s[0] != typ then None
    else
      match ServerNumber(s[1..k])
      case None => None
      case Some(n) => Some((n, s[k + 2..]))
  }

  function FindCR(s: bytes): (k: nat)
    ensures k <= |s| && (k < |s| ==> s[k] == 13)
    ensures forall i | 0 <= i < k :: s[i] != 13
  {
    if s == [] || s[0] == 13 then 0 else 1 + FindCR(s[1..])
  }

  function ServerNumber(s: bytes): Option<nat>
  {
    if s == [] || (|s| > 1 && s[0] == 48) || exists i | 0 <= i < |s| :: !IsDigit(s[i]) then None
    else Some(DigitsValue(s))
  }

  lemma ServerReadsNumber(typ: byte, n: nat, rest: bytes)
    requires typ != 13
    ensures ServerHeader(Line(typ, Itoa(n)) + rest, typ) == Some((n, rest))
  {
    var body := Digits(n);
    var s := Line(typ, Itoa(n)) + rest;
    assert s == [typ] + body + ([13, 10] + rest);
    assert forall i | 0 <= i < 1 + |body| :: s[i] == ([typ] + body)[i];
    assert s[1 + |body|] == 13;
    assert FindCR(s) == 1 + |body|;
    NoLeadingZero(n);
    assert s[1..1 + |body|] == body && s[|body| + 3..] == rest;
    DigitsRoundTrip(n);
  }

  lemma {:induction false} ParseArgsInverts(args: seq<bytes>, rest: bytes)
    ensures ParseArgs(EncodeArgs(args) + rest, |args|) == Some((args, rest))
  {
    if args == [] {
      assert EncodeArgs(args) + rest == rest;
    } else {
      var more := EncodeArgs(args[1..]) + rest;
      assert EncodeArgs(args) + rest == EncodeBulk(args[0]) + more;
      ParseArgInverts(args[0], more);
      ParseArgsInverts(args[1..], rest);
      ParseArgsStep(EncodeBulk(args[0]) + more, |args|, args[0], more, args[1..], rest);
      assert args == [args[0]] + args[1..];
    }
  }

  lemma ParseArgsStep(s: bytes, n: nat, arg: bytes, more: bytes, args: seq<bytes>, rest: bytes)
    requires n > 0 && ParseArg(s) == Some((arg, more)) && ParseArgs(more, n - 1) == Some((args, rest))
    ensures ParseArgs(s, n) == Some(([arg] + args, rest))
  {
  }

  lemma ParseArgInverts(a: bytes, more: bytes)
    ensures ParseArg(EncodeBulk(a) + more) == Some((a, more))
  {
    BulkParts(a, more);
    ServerReadsNumber(BULK, |a|, a + CRLF + more);
    assert (a + CRLF + more)[|a|] == 13 && (a + CRLF + more)[|a| + 1] == 10;
  }

  /** A server reads a command back to its arguments, whatever bytes they contain. */
  lemma ParseCommandInverts(args: seq<bytes>, rest: bytes)
    ensures ParseCommand(EncodeCommand(args) + rest) == Some((args, rest))
  {
    ServerReadsNumber(ARRAY, |args|, EncodeArgs(args) + rest);
    assert EncodeCommand(args) + rest == Line(ARRAY, Itoa(|args|)) + (EncodeArgs(args) + rest);
    ParseArgsInverts(args, rest);
  }
}
