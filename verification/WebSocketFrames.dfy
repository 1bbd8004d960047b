/** The RFC 6455 frame codec (backend/internal/wsserver/websocket.go, lines 90-192).

    Bytes are numbers 0..255, so the bit operations of the source are written as arithmetic:
    `x & 0x0F` is `x % 16`, `x & 0x7F` is `x % 128`, and the masking XOR is defined bit by bit. */
module WebSocketFrames {
  import opened Arithmetic
  import opened Common
  import opened Bytes

  const TEXT: byte := 1
  const CLOSE: byte := 8
  const PING: byte := 9
  const PONG: byte := 10

  // ---- XOR ----

  function XorBits(n: nat, a: nat, b: nat): (x: nat)
    ensures x < Pow2(n)
  {
    if n == 0 then 0 else 2 * XorBits(n - 1, a / 2, b / 2) + (if a % 2 == b % 2 then 0 else 1)
  }

  lemma {:induction false} XorBitsUndoes(n: nat, a: nat, b: nat)
    requires a < Pow2(n)
    ensures XorBits(n, XorBits(n, a, b), b) == a
  {
    if n > 0 {
      var y := XorBits(n - 1, a / 2, b / 2);
      XorBitsUndoes(n - 1, a / 2, b / 2);
      LowBit(y, if a % 2 == b % 2 then 0 else 1);
    }
  }

  lemma LowBit(y: nat, bit: nat)
    requires bit < 2
    ensures (2 * y + bit) / 2 == y && (2 * y + bit) % 2 == bit
  {
  }

  lemma Pow2Of8()
    ensures Pow2(8) == 256
  {
    assert Pow2(4) == 16;
  }

  function Xor(a: byte, b: byte): byte
  {
    Pow2Of8();
    XorBits(8, a, b)
  }

  lemma XorUndoes(a: byte, b: byte)
    ensures Xor(Xor(a, b), b) == a
  {
    Pow2Of8();
    XorBitsUndoes(8, a, b);
  }

  /** Bit `k` of a number. */
  function Bit(n: nat, k: nat): (b: nat)
    ensures b < 2
  {
    n / Pow2(k) % 2
  }

  lemma BitOfHalf(n: nat, k: nat)
    ensures Bit(n, 0) == n % 2 && Bit(n, k + 1) == Bit(n / 2, k)
  {
    HalfFirst(n, Pow2(k));
  }

  lemma HalfFirst(n: nat, p: nat)
    requires p > 0
    ensures n / (2 * p) == n / 2 / p
  {
    var h := n / 2;
    var q := h / p;
    assert h == p * q + h % p;
    QuotientIs(q, 2 * (h % p) + n % 2, 2 * p);
    assert n == q * (2 * p) + (2 * (h % p) + n % 2);
  }

  lemma {:induction false} XorBitsAt(n: nat, a: nat, b: nat, k: nat)
    requires k < n
    ensures Bit(XorBits(n, a, b), k) == if Bit(a, k) != Bit(b, k) then 1 else 0
  {
    var x, y := XorBits(n, a, b), XorBits(n - 1, a / 2, b / 2);
    LowBit(y, if a % 2 == b % 2 then 0 else 1);
    if k == 0 {
      BitOfHalf(a, 0);
      BitOfHalf(b, 0);
      BitOfHalf(x, 0);
    } else {
      XorBitsAt(n - 1, a / 2, b / 2, k - 1);
      BitOfHalf(a, k - 1);
      BitOfHalf(b, k - 1);
      BitOfHalf(x, k - 1);
    }
  }

  /** Exclusive or, bit by bit: a bit of the result is set exactly where the two differ. */
  lemma XorDiffers(a: byte, b: byte, k: nat)
    requires k < 8
    ensures Bit(Xor(a, b), k) == if Bit(a, k) != Bit(b, k) then 1 else 0
  {
    XorBitsAt(8, a, b, k);
  }

  lemma {:induction false} SameBits(n: nat, a: nat, b: nat)
    requires a < Pow2(n) && b < Pow2(n) && forall k | 0 <= k < n :: Bit(a, k) == Bit(b, k)
    ensures a == b
  {
    if n > 0 {
      forall k | 0 <= k < n - 1 ensures Bit(a / 2, k) == Bit(b / 2, k) {
        BitOfHalf(a, k);
        BitOfHalf(b, k);
        assert Bit(a, k + 1) == Bit(b, k + 1);
      }
      SameBits(n - 1, a / 2, b / 2);
      BitOfHalf(a, 0);
      BitOfHalf(b, 0);
      assert Bit(a, 0) == Bit(b, 0);
    }
  }

  /** The bits determine the byte, so `XorDiffers` leaves `Xor` no choice: any byte with those bits is
      the result. */
  lemma XorIsUnique(a: byte, b: byte, x: byte)
    requires forall k | 0 <= k < 8 :: Bit(x, k) == if Bit(a, k) != Bit(b, k) then 1 else 0
    ensures x == Xor(a, b)
  {
    Pow2Of8();
    forall k | 0 <= k < 8 ensures Bit(x, k) == Bit(Xor(a, b), k) {
      XorDiffers(a, b, k);
    }
    SameBits(8, x, Xor(a, b));
  }

  /** Masking with a zero key changes nothing. */
  lemma ZeroKeyKeeps(p: bytes)
    ensures Mask([0, 0, 0, 0], p) == p
  {
    forall i | 0 <= i < |p| ensures Mask([0, 0, 0, 0], p)[i] == p[i] {
      forall k | 0 <= k < 8 ensures Bit(p[i], k) == if Bit(p[i], k) != Bit(0, k) then 1 else 0 {
        assert Bit(0, k) == 0;
      }
      XorIsUnique(p[i], 0, p[i]);
    }
  }

  /** The masking of section 5.3. */
  function Mask(key: bytes, p: bytes): (m: bytes)
    requires |key| == 4
    ensures |m| == |p| && forall i | 0 <= i < |p| :: m[i] == Xor(p[i], key[i % 4])
  {
    seq(|p|, i requires 0 <= i < |p| => Xor(p[i], key[i % 4]))
  }

  lemma MaskUndoes(key: bytes, p: bytes)
    requires |key| == 4
    ensures Mask(key, Mask(key, p)) == p
  {
    forall i | 0 <= i < |p| ensures Mask(key, Mask(key, p))[i] == p[i] {
      XorUndoes(p[i], key[i % 4]);
    }
  }

  // ---- lengths ----

  /** `n` in `k` bytes, most significant first; like the source's conversion it drops high bits. */
  function BigEndian(k: nat, n: nat): (s: bytes)
    ensures |s| == k
  {
    if k == 0 then [] else BigEndian(k - 1, n / 256) + [n % 256]
  }

  function BigEndianValue(s: bytes): nat
  {
    if s == [] then 0 else BigEndianValue(s[..|s| - 1]) * 256 + s[|s| - 1]
  }

  function Pow256(k: nat): (p: nat)
    ensures p >= 1
  {
    if k == 0 then 1 else 256 * Pow256(k - 1)
  }

  lemma {:induction false} BigEndianRoundTrip(k: nat, n: nat)
    requires n < Pow256(k)
    ensures BigEndianValue(BigEndian(k, n)) == n
  {
    if k > 0 {
      BigEndianRoundTrip(k - 1, n / 256);
      var s := BigEndian(k, n);
      assert s[..k - 1] == BigEndian(k - 1, n / 256);
    }
  }

  lemma {:induction false} BigEndianValueBound(s: bytes)
    ensures BigEndianValue(s) < Pow256(|s|)
  {
    if s != [] {
      BigEndianValueBound(s[..|s| - 1]);
    }
  }

  lemma Pow256Values()
    ensures Pow256(2) == 0x1_0000 && Pow256(8) == 0x1_0000_0000_0000_0000
  {
    assert Pow256(4) == 0x1_0000_0000;
    assert Pow256(6) == 0x1_0000_0000_0000;
  }

  /** The 7-bit code and the extension bytes that announce a payload of `n` bytes (section 5.2). */
  function LengthCode(n: nat): (c: byte)
    ensures c < 128
  {
    if n <= 125 then n else if n <= 65535 then 126 else 127
  }

  function ExtensionSize(code: int): nat
  {
    if code == 126 then 2 else if code == 127 then 8 else 0
  }

  function Extension(n: nat): bytes
  {
    BigEndian(ExtensionSize(LengthCode(n)), n)
  }

  /** What a code and its extension announce. */
  function Announced(code: int, ext: bytes): int
  {
    if code == 126 || code == 127 then BigEndianValue(ext) else code
  }

  predicate LegalLength(code: int, ext: bytes)
  {
    0 <= code < 128 && |ext| == ExtensionSize(code)
  }

  lemma AnnouncedIsLength(n: nat)
    requires n <= MAX_INT
    ensures LegalLength(LengthCode(n), Extension(n)) && Announced(LengthCode(n), Extension(n)) == n
  {
    Pow256Values();
    BigEndianRoundTrip(ExtensionSize(LengthCode(n)), if n <= 125 then 0 else n);
  }

  /** The form chosen is the shortest of all that can announce the length. */
  lemma ShortestForm(n: nat, code: int, ext: bytes)
    requires n <= MAX_INT && LegalLength(code, ext) && Announced(code, ext) == n
    ensures |Extension(n)| <= |ext|
  {
    Pow256Values();
    BigEndianValueBound(ext);
  }

  // ---- frames ----

  function Header(opcode: byte, masked: bool, n: nat): bytes
    requires opcode < 16
  {
    [0x80 + opcode, (if masked then 0x80 else 0) + LengthCode(n)] + Extension(n)
  }

  /** What `writeFrame` sends: a single unmasked frame. */
  function EncodeFrame(opcode: byte, p: bytes): bytes
    requires opcode < 16
  {
    Header(opcode, false, |p|) + p
  }

  /** What a client sends: a single frame masked with a 4-byte key. */
  function EncodeMasked(opcode: byte, key: bytes, p: bytes): (s: bytes)
    requires opcode < 16 && |key| == 4
    ensures |s| >= 2
  {
    Header(opcode, true, |p|) + key + Mask(key, p)
  }

  datatype FrameRead =
    | FrameOk(opcode: byte, payload: bytes, rest: bytes)
    | ReadFails     // not enough bytes
    | FramePanics   // a 64-bit length with the top bit set makes a negative slice length

  /** `readFrame` on the unread bytes. */
  function ParseFrame(s: bytes): (r: FrameRead)
    ensures r.FrameOk? ==> |r.rest| <= |s| - 2
  {
    if |s| < 2 then ReadFails
    else
      var code := s[1] % 128;
      var k := ExtensionSize(code);
      if |s| < 2 + k then ReadFails
      else ParseBody(s[0] % 16, s[1] >= 128, Announced(code, s[2..2 + k]), s[2 + k..])
  }

  function ParseBody(opcode: byte, masked: bool, length: int, s: bytes): (r: FrameRead)
    ensures r.FrameOk? ==> |r.rest| <= |s|
  {
    if masked && |s| < 4 then ReadFails
    else
      var data := if masked then s[4..] else s;
      if length < 0 || length > MAX_INT then FramePanics
      else if |data| < length then ReadFails
      else FrameOk(opcode, if masked then Mask(s[..4], data[..length]) else data[..length], data[length..])
  }

  lemma ParseHeader(opcode: byte, masked: bool, n: nat, body: bytes)
    requires opcode < 16 && n <= MAX_INT
    ensures ParseFrame(Header(opcode, masked, n) + body) == ParseBody(opcode, masked, n, body)
  {
    var s := Header(opcode, masked, n) + body;
    var k := ExtensionSize(LengthCode(n));
    AnnouncedIsLength(n);
    assert s[1] % 128 == LengthCode(n) && s[0] % 16 == opcode;
    assert s[2..2 + k] == Extension(n) && s[2 + k..] == body;
  }

  /** `readFrame` inverts `writeFrame` and consumes exactly the frame. */
  lemma ParseInvertsEncode(opcode: byte, p: bytes, rest: bytes)
    requires opcode < 16 && |p| <= MAX_INT
    ensures ParseFrame(EncodeFrame(opcode, p) + rest) == FrameOk(opcode, p, rest)
  {
    assert EncodeFrame(opcode, p) + rest == Header(opcode, false, |p|) + (p + rest);
    ParseHeader(opcode, false, |p|, p + rest);
    assert (p + rest)[..|p|] == p && (p + rest)[|p|..] == rest;
  }

  /** It also inverts the client's encoding, for every masking key. */
  lemma ParseInvertsMasked(opcode: byte, key: bytes, p: bytes, rest: bytes)
    requires opcode < 16 && |key| == 4 && |p| <= MAX_INT
    ensures ParseFrame(EncodeMasked(opcode, key, p) + rest) == FrameOk(opcode, p, rest)
  {
    var m := Mask(key, p);
    assert EncodeMasked(opcode, key, p) + rest == Header(opcode, true, |p|) + (key + (m + rest));
    ParseHeader(opcode, true, |p|, key + (m + rest));
    ParseMaskedBody(opcode, key, m, rest);
    MaskUndoes(key, p);
  }

  lemma ParseMaskedBody(opcode: byte, key: bytes, m: bytes, rest: bytes)
    requires |key| == 4 && |m| <= MAX_INT
    ensures ParseBody(opcode, true, |m|, key + (m + rest)) == FrameOk(opcode, Mask(key, m), rest)
  {
    var body := key + (m + rest);
    assert body[..4] == key && body[4..] == m + rest;
    assert (m + rest)[..|m|] == m && (m + rest)[|m|..] == rest;
  }

  // ---- what the bytes look like to others ----

  /** The first byte of every frame has FIN set and the reserved bits clear, then the opcode; the mask
      bit is clear from the server and set from a client (section 5.2). */
  lemma HeaderBits(opcode: byte, key: bytes, p: bytes)
    requires opcode < 16 && |key| == 4
    ensures var s := EncodeFrame(opcode, p);
      |s| >= 2 && s[0] / 16 == 8 && s[0] % 16 == opcode && s[1] / 128 == 0
    ensures var s := EncodeMasked(opcode, key, p);
      s[0] / 16 == 8 && s[0] % 16 == opcode && s[1] / 128 == 1
  {
  }

  /** How a browser reads a frame of the server, by the letter of section 5.2: it takes no fragment, no
      reserved bit, no mask, no length form longer than needed and no 64-bit length with the top bit
      set. The result is opcode, payload and what follows. */
  function BrowserRead(s: bytes): Option<(int, bytes, bytes)>
  {
    if |s| < 2 || s[0] / 128 != 1 || s[0] / 16 % 8 != 0 || s[1] / 128 != 0 then None
    else if s[1] <= 125 then BrowserBody(s[0] % 16, s[1], s[2..])
    else if s[1] == 126 then if |s| < 4 then None else
      var n := 0x100 * s[2] as int + s[3] as int;
      if n <= 125 then None else BrowserBody(s[0] % 16, n, s[4..])
    else
      if |s| < 10 || s[2] >= 128 || Wide(s[2..10]) <= 65535 then None else BrowserBody(s[0] % 16, Wide(s[2..10]), s[10..])
  }

  /** A 64-bit length in network byte order. */
  function Wide(s: bytes): nat
    requires |s| == 8
  {
    0x100_0000_0000_0000 * s[0] as int + 0x1_0000_0000_0000 * s[1] as int
    + 0x100_0000_0000 * s[2] as int + 0x1_0000_0000 * s[3] as int
    + 0x100_0000 * s[4] as int + 0x1_0000 * s[5] as int + 0x100 * s[6] as int + s[7] as int
  }

  function BrowserBody(opcode: int, n: nat, s: bytes): Option<(int, bytes, bytes)>
  {
    if |s| < n then None else Some((opcode, s[..n], s[n..]))
  }

  lemma TwoBytes(n: nat)
    requires n <= 0xffff
    ensures BigEndian(2, n) == [n / 256, n % 256]
  {
    assert BigEndian(1, n / 256) == BigEndian(0, n / 256 / 256) + [n / 256];
  }

  lemma EightBytes(n: nat)
    requires n <= MAX_INT
    ensures Wide(BigEndian(8, n)) == n && BigEndian(8, n)[0] < 128
  {
    Pow256Values();
    BigEndianRoundTrip(8, n);
    WideIsValue(BigEndian(8, n));
  }

  lemma WideIsValue(s: bytes)
    requires |s| == 8
    ensures Wide(s) == BigEndianValue(s)
  {
    ValueOfPrefix(s, 8);
    ValueOfPrefix(s, 7);
    ValueOfPrefix(s, 6);
    ValueOfPrefix(s, 5);
    ValueOfPrefix(s, 4);
    ValueOfPrefix(s, 3);
    ValueOfPrefix(s, 2);
    ValueOfPrefix(s, 1);
    assert s[..8] == s && s[..0] == [];
  }

  lemma ValueOfPrefix(s: bytes, k: nat)
    requires 0 < k <= |s|
    ensures BigEndianValue(s[..k]) == BigEndianValue(s[..k - 1]) * 256 + s[k - 1]
  {
    assert s[..k][..k - 1] == s[..k - 1];
  }

  /** A browser accepts every frame the server writes: it gets opcode and payload and nothing of what
      follows. */
  lemma BrowserReadsFrame(opcode: byte, p: bytes, rest: bytes)
    requires opcode < 16 && |p| <= MAX_INT
    ensures BrowserRead(EncodeFrame(opcode, p) + rest) == Some((opcode, p, rest))
  {
    var n, s := |p|, EncodeFrame(opcode, p) + rest;
    HeaderBits(opcode, [0, 0, 0, 0], p);
    assert s == Header(opcode, false, n) + (p + rest);
    assert (p + rest)[..n] == p && (p + rest)[n..] == rest;
    if n <= 125 {
      assert s[2..] == p + rest;
    } else if n <= 65535 {
      TwoBytes(n);
      assert s[4..] == p + rest;
    } else {
      EightBytes(n);
      assert s[2..10] == BigEndian(8, n) && s[10..] == p + rest;
    }
  }

  // ---- frames that are cut off ----

  /** A header, a key if there is one, and a payload, cut anywhere: a read error. */
  lemma CutIsReadError(opcode: byte, masked: bool, n: nat, body: bytes, k: nat)
    requires opcode < 16 && n <= MAX_INT && |body| == n + if masked then 4 else 0
    requires k < |Header(opcode, masked, n)| + |body|
    ensures ParseFrame((Header(opcode, masked, n) + body)[..k]) == ReadFails
  {
    var h := Header(opcode, masked, n);
    var e := ExtensionSize(LengthCode(n));
    var s := (h + body)[..k];
    if k >= 2 {
      assert s[1] == h[1] && s[1] % 128 == LengthCode(n) && s[0] == h[0];
      if k >= 2 + e {
        assert s == h + body[..k - 2 - e];
        ParseHeader(opcode, masked, n, body[..k - 2 - e]);
      }
    }
  }

  /** Of a frame, every proper prefix is a read error, whichever side sent it. */
  lemma CutFrameIsReadError(opcode: byte, key: bytes, p: bytes, k: nat)
    requires opcode < 16 && |key| == 4 && |p| <= MAX_INT
    ensures k < |EncodeFrame(opcode, p)| ==> ParseFrame(EncodeFrame(opcode, p)[..k]) == ReadFails
    ensures k < |EncodeMasked(opcode, key, p)| ==> ParseFrame(EncodeMasked(opcode, key, p)[..k]) == ReadFails
  {
    if k < |EncodeFrame(opcode, p)| {
      CutIsReadError(opcode, false, |p|, p, k);
    }
    if k < |EncodeMasked(opcode, key, p)| {
      assert EncodeMasked(opcode, key, p) == Header(opcode, true, |p|) + (key + Mask(key, p));
      CutIsReadError(opcode, true, |p|, key + Mask(key, p), k);
    }
  }

  /** Frames as in section 5.7 of RFC 6455, byte for byte: "Hello" in a text frame, the first bytes of
      the control frames, and the long length forms. */
  lemma FramesOnTheWire()
    ensures EncodeFrame(TEXT, [0x48, 0x65, 0x6c, 0x6c, 0x6f]) == [0x81, 0x05, 0x48, 0x65, 0x6c, 0x6c, 0x6f]
    ensures EncodeFrame(PING, [0x48])[0] == 0x89 && EncodeFrame(PONG, [0x48])[0] == 0x8a && EncodeFrame(CLOSE, [])[0] == 0x88
    ensures Extension(256) == [1, 0] && Extension(65536) == [0, 0, 0, 0, 0, 1, 0, 0]
  {
    TwoBytes(256);
    assert BigEndian(4, 0) == [0, 0, 0, 0];
    assert BigEndian(5, 0) == [0, 0, 0, 0, 0];
    assert BigEndian(6, 1) == BigEndian(5, 0) + [1];
    assert BigEndian(7, 256) == BigEndian(6, 1) + [0];
    assert BigEndian(8, 65536) == BigEndian(7, 256) + [0];
  }

  // ---- the message loop ----

  datatype Frame = Frame(opcode: byte, key: bytes, payload: bytes)

  predicate WellFormed(f: Frame)
  {
    f.opcode < 16 && |f.key| == 4 && |f.payload| <= MAX_INT
  }

  function EncodeClient(f: Frame): (s: bytes)
    requires WellFormed(f)
    ensures |s| >= 2
  {
    EncodeMasked(f.opcode, f.key, f.payload)
  }

  predicate AllWellFormed(fs: seq<Frame>)
  {
    forall i | 0 <= i < |fs| :: WellFormed(fs[i])
  }

  /** The bytes a client sends for a sequence of frames. */
  function Stream(fs: seq<Frame>): bytes
    requires AllWellFormed(fs)
  {
    if fs == [] then [] else EncodeClient(fs[0]) + Stream(fs[1..])
  }

  datatype Received =
    | Message(payload: bytes, pongs: seq<bytes>, rest: bytes)
    | Closed(pongs: seq<bytes>, rest: bytes)   // io.EOF
    | Broken(pongs: seq<bytes>)                // a read error
    | Crashed(pongs: seq<bytes>)

  function Answering(ping: bytes, r: Received): Received
  {
    r.(pongs := [ping] + r.pongs)
  }

  /** `ReadMessage` on the unread bytes: what it returns, the pings it answers, and what it leaves. */
  function Receive(s: bytes): Received
    decreases |s|
  {
    match ParseFrame(s)
    case ReadFails => Broken([])
    case FramePanics => Crashed([])
    case FrameOk(op, p, rest) =>
      if op == TEXT then Message(p, [], rest)
      else if op == CLOSE then Closed([], rest)
      else if op == PING then Answering(p, Receive(rest))
      else Receive(rest)
  }

  predicate Ends(f: Frame)
  {
    f.opcode == TEXT || f.opcode == CLOSE
  }

  /** The first text or close frame, or the number of frames if there is none. */
  function FirstEnd(fs: seq<Frame>): (i: nat)
    ensures i <= |fs| && (i < |fs| ==> fs[i].opcode == 1 || fs[i].opcode == 8)
    ensures forall j | 0 <= j < i :: fs[j].opcode != 1 && fs[j].opcode != 8
  {
    if fs == [] || Ends(fs[0]) then 0 else 1 + FirstEnd(fs[1..])
  }

  function Pings(fs: seq<Frame>): seq<bytes>
  {
    if fs == [] then [] else (if fs[0].opcode == PING then [fs[0].payload] else []) + Pings(fs[1..])
  }

  /** The first frame of a stream is parsed and the rest of the stream left. */
  lemma ParsesFirst(fs: seq<Frame>, tail: bytes)
    requires AllWellFormed(fs) && fs != []
    ensures ParseFrame(Stream(fs) + tail) == FrameOk(fs[0].opcode, fs[0].payload, Stream(fs[1..]) + tail)
  {
    assert WellFormed(fs[0]);
    assert Stream(fs) + tail == EncodeClient(fs[0]) + (Stream(fs[1..]) + tail);
    ParseInvertsMasked(fs[0].opcode, fs[0].key, fs[0].payload, Stream(fs[1..]) + tail);
  }

  /** One turn of the loop on a stream of frames. */
  lemma ReceivesOne(fs: seq<Frame>, tail: bytes, more: bytes)
    requires AllWellFormed(fs) && fs != [] && more == Stream(fs[1..]) + tail
    ensures Receive(Stream(fs) + tail) ==
      if fs[0].opcode == TEXT then Message(fs[0].payload, [], more)
      else if fs[0].opcode == CLOSE then Closed([], more)
      else if fs[0].opcode == PING then Answering(fs[0].payload, Receive(more))
      else Receive(more)
  {
    ParsesFirst(fs, tail);
  }

  /** What `ReadMessage` owes a stream of frames that has a text or close frame: the payload of the
      first text frame if it precedes every close frame, EOF if a close frame comes first, one pong
      per ping seen before, in order and with its payload, and the rest of the stream unread. */
  function Owed(fs: seq<Frame>, tail: bytes): Received
    requires AllWellFormed(fs) && FirstEnd(fs) < |fs|
  {
    var i := FirstEnd(fs);
    var rest := Stream(fs[i + 1..]) + tail;
    if fs[i].opcode == TEXT then Message(fs[i].payload, Pings(fs[..i]), rest) else Closed(Pings(fs[..i]), rest)
  }

  lemma OwedNow(fs: seq<Frame>, tail: bytes)
    requires AllWellFormed(fs) && fs != [] && Ends(fs[0])
    ensures var more := Stream(fs[1..]) + tail;
      Owed(fs, tail) == if fs[0].opcode == TEXT then Message(fs[0].payload, [], more) else Closed([], more)
  {
    assert fs[..0] == [];
  }

  lemma OwedStep(fs: seq<Frame>, tail: bytes)
    requires AllWellFormed(fs) && FirstEnd(fs) < |fs| && !Ends(fs[0])
    ensures Owed(fs, tail) ==
      var owed := Owed(fs[1..], tail);
      if fs[0].opcode == PING then Answering(fs[0].payload, owed) else owed
  {
    var i := FirstEnd(fs);
    PingsStep(fs, i);
    assert FirstEnd(fs[1..]) == i - 1 && fs[1..][i - 1] == fs[i];
    assert fs[1..][i..] == fs[i + 1..];
  }

  lemma PingsStep(fs: seq<Frame>, i: nat)
    requires 0 < i <= |fs|
    ensures Pings(fs[..i]) == (if fs[0].opcode == PING then [fs[0].payload] else []) + Pings(fs[1..][..i - 1])
  {
    assert fs[..i][0] == fs[0] && fs[..i][1..] == fs[1..][..i - 1];
  }

  /** On any sequence of well-formed frames followed by any bytes, `ReadMessage` does what it owes. */
  lemma {:induction false} ReceivesFirstMessage(fs: seq<Frame>, tail: bytes, s: bytes)
    requires AllWellFormed(fs) && FirstEnd(fs) < |fs| && s == Stream(fs) + tail
    ensures Receive(s) == Owed(fs, tail)
  {
    var more := Stream(fs[1..]) + tail;
    ReceivesOne(fs, tail, more);
    if Ends(fs[0]) {
      OwedNow(fs, tail);
    } else {
      ReceivesFirstMessage(fs[1..], tail, more);
      OwedStep(fs, tail);
    }
  }

  function AnsweringAll(pings: seq<bytes>, r: Received): Received
  {
    r.(pongs := pings + r.pongs)
  }

  lemma AnsweringOneMore(ping: bytes, pings: seq<bytes>, r: Received)
    ensures Answering(ping, AnsweringAll(pings, r)) == AnsweringAll([ping] + pings, r)
    ensures AnsweringAll([], r) == r
  {
    assert [ping] + (pings + r.pongs) == [ping] + pings + r.pongs;
  }

  /** Without a text or close frame the loop goes on reading after the last frame, having answered
      every ping. */
  lemma {:induction false} KeepsReading(fs: seq<Frame>, tail: bytes, s: bytes, after: Received)
    requires AllWellFormed(fs) && FirstEnd(fs) == |fs|
    requires s == Stream(fs) + tail && after == Receive(tail)
    ensures Receive(s) == AnsweringAll(Pings(fs), after)
  {
    if fs == [] {
      assert s == tail;
      AnsweringOneMore([], [], after);
    } else {
      var more := Stream(fs[1..]) + tail;
      ReceivesOne(fs, tail, more);
      KeepsReading(fs[1..], tail, more, after);
      AnsweringOneMore(fs[0].payload, Pings(fs[1..]), after);
      PingsOfAll(fs);
    }
  }

  lemma PingsOfAll(fs: seq<Frame>)
    requires fs != []
    ensures Pings(fs) == if fs[0].opcode == PING then [fs[0].payload] + Pings(fs[1..]) else Pings(fs[1..])
  {
    assert [] + Pings(fs[1..]) == Pings(fs[1..]);
  }

  /** A stream that ends inside a frame is an error, after the pings before it have been answered. */
  lemma CutStreamIsBroken(fs: seq<Frame>, f: Frame, k: nat, cut: bytes, s: bytes)
    requires AllWellFormed(fs) && FirstEnd(fs) == |fs| && WellFormed(f) && k < |EncodeClient(f)|
    requires cut == EncodeClient(f)[..k] && s == Stream(fs) + cut
    ensures Receive(s) == Broken(Pings(fs))
  {
    CutFrameIsReadError(f.opcode, f.key, f.payload, k);
    KeepsReading(fs, cut, s, Broken([]));
    assert Pings(fs) + [] == Pings(fs);
  }

  // ---- which pings are answered ----

  function PingsBefore(fs: seq<Frame>, i: nat): set<nat>
    requires i <= |fs|
  {
    set j | 0 <= j < i && fs[j].opcode == 9
  }

  lemma {:induction false} PingsConcat(a: seq<Frame>, b: seq<Frame>)
    ensures Pings(a + b) == Pings(a) + Pings(b)
  {
    if a == [] {
      assert a + b == b;
    } else {
      assert (a + b)[1..] == a[1..] + b;
      PingsConcat(a[1..], b);
    }
  }

  lemma {:induction false} PingCount(fs: seq<Frame>, i: nat)
    requires i <= |fs|
    ensures |Pings(fs[..i])| == |PingsBefore(fs, i)|
  {
    if i == 0 {
      assert PingsBefore(fs, 0) == {};
    } else {
      PingCount(fs, i - 1);
      assert fs[..i] == fs[..i - 1] + [fs[i - 1]];
      PingsConcat(fs[..i - 1], [fs[i - 1]]);
      assert PingsBefore(fs, i) == PingsBefore(fs, i - 1) + if fs[i - 1].opcode == 9 then {i - 1} else {};
    }
  }

  /** The pings are all those of the frames, in their order and with their payloads. */
  lemma EveryPingOnce(fs: seq<Frame>, i: nat)
    requires i < |fs| && fs[i].opcode == 9
    ensures |Pings(fs)| == |PingsBefore(fs, |fs|)|
    ensures |PingsBefore(fs, i)| < |Pings(fs)| && Pings(fs)[|PingsBefore(fs, i)|] == fs[i].payload
  {
    assert fs[..|fs|] == fs;
    PingCount(fs, |fs|);
    PingCount(fs, i);
    assert fs == fs[..i] + fs[i..] && fs[i..][0] == fs[i];
    PingsConcat(fs[..i], fs[i..]);
  }
}
