/** The keys of the prediction cache (backend/internal/cache/prediction_cache.go, lines 37-58).

    Taken as given: SHA-1 (with its hex form) as an injective function and the library's minute layout
    as an injective function of the wall-clock minute. */
module PredictionKeys {
  import opened Bytes

  const BAR: byte := 124
  const DOT: byte := 46
  /** "prediction:" */
  const PREFIX: bytes := [112, 114, 101, 100, 105, 99, 116, 105, 111, 110, 58]

  /** A coordinate rounded to four decimals: its sign (a negative zero keeps it) and ten-thousandths. */
  datatype Fixed = Fixed(negative: bool, units: nat)

  /** A pickup time: the instant in Unix seconds with its UTC offset, or text that does not parse. */
  datatype Pickup = Instant(seconds: int, offsetMinutes: int) | Unparsable(text: bytes)

  /** The fields of a request that enter its key. */
  datatype Trip = Trip(pickupLat: Fixed, pickupLng: Fixed, dropoffLat: Fixed, dropoffLng: Fixed,
                       passengers: int, pickup: Pickup)

  type Layout = int -> bytes
  type Hash = bytes -> bytes

  ghost predicate Injective<T(!new)>(f: T -> bytes)
  {
    forall x, y :: f(x) == f(y) ==> x == y
  }

  /** `%.4f`. */
  function FormatFixed(f: Fixed): bytes
  {
    (if f.negative then [MINUS] else []) + Digits(f.units / 10000) + [DOT] + PaddedDigits(4, f.units % 10000)
  }

  /** The last `k` decimal digits of `n`. */
  function PaddedDigits(k: nat, n: nat): (r: bytes)
    ensures |r| == k && forall i | 0 <= i < k :: IsDigit(r[i])
  {
    if k == 0 then [] else PaddedDigits(k - 1, n / 10) + [48 + n % 10]
  }

  /** The wall-clock minute at which the ten-minute bucket begins. */
  function BucketMinute(p: Pickup): int
    requires p.Instant?
  {
    10 * (p.seconds / 600) + p.offsetMinutes
  }

  /** `timeBucket`. */
  function TimeBucket(layout: Layout, p: Pickup): bytes
  {
    if p.Unparsable? then p.text else layout(BucketMinute(p))
  }

  function RawKey(layout: Layout, t: Trip): bytes
  {
    FormatFixed(t.pickupLat) + [BAR] + (FormatFixed(t.pickupLng) + [BAR] + (FormatFixed(t.dropoffLat) + [BAR]
    + (FormatFixed(t.dropoffLng) + [BAR] + (Itoa(t.passengers) + [BAR] + TimeBucket(layout, t.pickup)))))
  }

  function Key(layout: Layout, hash: Hash, t: Trip): bytes
  {
    PREFIX + hash(RawKey(layout, t))
  }

  // ---- when two requests share a key ----

  lemma SplitAtFirst(sep: byte, a: bytes, d: bytes, b: bytes, e: bytes)
    requires a + [sep] + d == b + [sep] + e
    requires sep !in a && sep !in b
    ensures a == b && d == e
  {
    var s := a + [sep] + d;
    assert s[|a|] == sep && s[|b|] == sep;
    assert forall j | 0 <= j < |a| :: s[j] == a[j];
    assert forall j | 0 <= j < |b| :: s[j] == (b + [sep] + e)[j] == b[j];
    assert |a| == |b|;
    assert s[..|a|] == a && s[..|b|] == b;
    assert s[|a| + 1..] == d && s[|b| + 1..] == e;
  }

  function Pow10(k: nat): (p: nat)
    ensures p >= 1
  {
    if k == 0 then 1 else 10 * Pow10(k - 1)
  }

  lemma {:induction false} PaddedDigitsRoundTrip(k: nat, n: nat)
    requires n < Pow10(k)
    ensures DigitsValue(PaddedDigits(k, n)) == n
  {
    if k > 0 {
      var r := PaddedDigits(k, n);
      PaddedDigitsRoundTrip(k - 1, n / 10);
      assert r[..k - 1] == PaddedDigits(k - 1, n / 10);
    }
  }

  lemma FourDigitsRoundTrip(n: nat)
    requires n < 10000
    ensures DigitsValue(PaddedDigits(4, n)) == n
  {
    assert Pow10(2) == 100 && Pow10(4) == 10000;
    PaddedDigitsRoundTrip(4, n);
  }

  lemma FormatFixedInjective(f: Fixed, g: Fixed)
    requires FormatFixed(f) == FormatFixed(g)
    ensures f == g
  {
    var a, b := Digits(f.units / 10000), Digits(g.units / 10000);
    var d, e := PaddedDigits(4, f.units % 10000), PaddedDigits(4, g.units % 10000);
    assert FormatFixed(f)[0] == if f.negative then MINUS else a[0];
    assert FormatFixed(g)[0] == if g.negative then MINUS else b[0];
    if f.negative {
      assert FormatFixed(f)[1..] == a + [DOT] + d;
      assert FormatFixed(g)[1..] == b + [DOT] + e;
    } else {
      assert FormatFixed(f) == a + [DOT] + d;
      assert FormatFixed(g) == b + [DOT] + e;
    }
    SplitAtFirst(DOT, a, d, b, e);
    DigitsRoundTrip(f.units / 10000);
    DigitsRoundTrip(g.units / 10000);
    FourDigitsRoundTrip(f.units % 10000);
    FourDigitsRoundTrip(g.units % 10000);
  }

  lemma FormatFixedHasNoBar(f: Fixed)
    ensures BAR !in FormatFixed(f)
  {
  }

  lemma FieldsSplit(f: Fixed, d: bytes, g: Fixed, e: bytes)
    requires FormatFixed(f) + [BAR] + d == FormatFixed(g) + [BAR] + e
    ensures f == g && d == e
  {
    FormatFixedHasNoBar(f);
    FormatFixedHasNoBar(g);
    SplitAtFirst(BAR, FormatFixed(f), d, FormatFixed(g), e);
    FormatFixedInjective(f, g);
  }

  lemma RawKeyInjective(layout: Layout, t: Trip, u: Trip)
    requires RawKey(layout, t) == RawKey(layout, u)
    ensures t.(pickup := u.pickup) == u
    ensures TimeBucket(layout, t.pickup) == TimeBucket(layout, u.pickup)
  {
    var t5, u5 := Itoa(t.passengers) + [BAR] + TimeBucket(layout, t.pickup), Itoa(u.passengers) + [BAR] + TimeBucket(layout, u.pickup);
    var t4, u4 := FormatFixed(t.dropoffLng) + [BAR] + t5, FormatFixed(u.dropoffLng) + [BAR] + u5;
    var t3, u3 := FormatFixed(t.dropoffLat) + [BAR] + t4, FormatFixed(u.dropoffLat) + [BAR] + u4;
    var t2, u2 := FormatFixed(t.pickupLng) + [BAR] + t3, FormatFixed(u.pickupLng) + [BAR] + u3;
    FieldsSplit(t.pickupLat, t2, u.pickupLat, u2);
    FieldsSplit(t.pickupLng, t3, u.pickupLng, u3);
    FieldsSplit(t.dropoffLat, t4, u.dropoffLat, u4);
    FieldsSplit(t.dropoffLng, t5, u.dropoffLng, u5);
    SplitAtFirst(BAR, Itoa(t.passengers), TimeBucket(layout, t.pickup), Itoa(u.passengers), TimeBucket(layout, u.pickup));
    ItoaInjective(t.passengers, u.passengers);
  }

  /** Two requests share a key exactly when their rounded coordinates, passenger counts and bucket
      texts agree. */
  lemma KeysAgreeIff(layout: Layout, hash: Hash, t: Trip, u: Trip)
    requires Injective(hash)
    ensures Key(layout, hash, t) == Key(layout, hash, u) <==>
      t.(pickup := u.pickup) == u && TimeBucket(layout, t.pickup) == TimeBucket(layout, u.pickup)
  {
    if Key(layout, hash, t) == Key(layout, hash, u) {
      assert Key(layout, hash, t)[|PREFIX|..] == hash(RawKey(layout, t));
      assert Key(layout, hash, u)[|PREFIX|..] == hash(RawKey(layout, u));
      RawKeyInjective(layout, t, u);
    }
  }

  /** For times that parse, the bucket is the wall-clock minute of the ten-minute slot, so requests
      with different UTC offsets share a key when their local slots coincide... */
  lemma ParsedKeysAgreeIff(layout: Layout, hash: Hash, t: Trip, u: Trip)
    requires Injective(hash) && Injective(layout) && t.pickup.Instant? && u.pickup.Instant?
    ensures Key(layout, hash, t) == Key(layout, hash, u) <==>
      t.(pickup := u.pickup) == u && BucketMinute(t.pickup) == BucketMinute(u.pickup)
  {
    KeysAgreeIff(layout, hash, t, u);
  }

  /** ... even though the trips are hours apart: */
  lemma OffsetsCanCollide(layout: Layout, hash: Hash, t: Trip)
    ensures Key(layout, hash, t.(pickup := Instant(0, 120))) == Key(layout, hash, t.(pickup := Instant(7200, 0)))
  {
    assert BucketMinute(Instant(0, 120)) == BucketMinute(Instant(7200, 0));
  }

  /** The start of the ten-minute slot on the wall clock of the request: it is at most the local minute,
      less than ten minutes before it, and ten minutes are counted in UTC. */
  predicate SlotStart(p: Pickup, minute: int)
    requires p.Instant?
  {
    var localMinute := (p.seconds + 60 * p.offsetMinutes) / 60;
    minute <= localMinute < minute + 10 && (minute - p.offsetMinutes) % 10 == 0
  }

  lemma BucketIsSlotStart(p: Pickup, minute: int)
    requires p.Instant?
    ensures SlotStart(p, minute) <==> minute == BucketMinute(p)
  {
    var q := p.seconds / 600;
    assert 600 * q <= p.seconds < 600 * q + 600;
    assert (p.seconds + 60 * p.offsetMinutes) / 60 == p.seconds / 60 + p.offsetMinutes;
    assert 10 * q <= p.seconds / 60 < 10 * q + 10;
  }

  lemma WallClockKeysAgreeIff(layout: Layout, hash: Hash, t: Trip, u: Trip, m: int, n: int)
    requires Injective(hash) && Injective(layout) && t.pickup.Instant? && u.pickup.Instant?
    requires SlotStart(t.pickup, m) && SlotStart(u.pickup, n)
    ensures Key(layout, hash, t) == Key(layout, hash, u) <==> t.(pickup := u.pickup) == u && m == n
  {
    ParsedKeysAgreeIff(layout, hash, t, u);
    BucketIsSlotStart(t.pickup, m);
    BucketIsSlotStart(u.pickup, n);
  }

  /** Times that do not parse are told apart by their text. */
  lemma UnparsableKeysAgreeIff(layout: Layout, hash: Hash, t: Trip, u: Trip)
    requires Injective(hash) && t.pickup.Unparsable? && u.pickup.Unparsable?
    ensures Key(layout, hash, t) == Key(layout, hash, u) <==> t == u
  {
    KeysAgreeIff(layout, hash, t, u);
  }

  /** A time that does not parse shares a key with one that does exactly if its text is that of the
      slot's start. */
  lemma MixedKeysAgreeIff(layout: Layout, hash: Hash, t: Trip, u: Trip, n: int)
    requires Injective(hash) && t.pickup.Unparsable? && u.pickup.Instant? && SlotStart(u.pickup, n)
    ensures Key(layout, hash, t) == Key(layout, hash, u) <==> t.(pickup := u.pickup) == u && t.pickup.text == layout(n)
  {
    KeysAgreeIff(layout, hash, t, u);
    BucketIsSlotStart(u.pickup, n);
  }

  /** With equal offsets, in particular for UTC times, a shared key means the same ten-minute slot. */
  lemma SameOffsetKeysAgreeIff(layout: Layout, hash: Hash, t: Trip, u: Trip)
    requires Injective(hash) && Injective(layout) && t.pickup.Instant? && u.pickup.Instant?
    requires t.pickup.offsetMinutes == u.pickup.offsetMinutes
    ensures Key(layout, hash, t) == Key(layout, hash, u) <==>
      t.(pickup := u.pickup) == u && t.pickup.seconds / 600 == u.pickup.seconds / 600
  {
    ParsedKeysAgreeIff(layout, hash, t, u);
  }
}
