/** The fixed-window rate limiter over Redis counters (backend/internal/ratelimit/limiter.go).

    One call of `Allow` is atomic, and one clock serves both the window number and Redis expiry. Time
    is in milliseconds since the epoch. A request may meet Redis errors: an INCR that is lost, an INCR
    that is applied although its reply is lost, or a lost EXPIRE. */
module RateLimit {
  import opened Arithmetic
  import opened Common
  import opened Bytes

  const COLON: byte := 58
  /** "ratelimit:" */
  const PREFIX: bytes := [114, 97, 116, 101, 108, 105, 109, 105, 116, 58]

  datatype Entry = Entry(count: int, expires: Option<nat>)
  type Store = map<bytes, Entry>

  datatype Fault = NoFault | IncrLost | IncrReplyLost | ExpireLost
  datatype Request = Request(id: bytes, t: nat, fault: Fault)

  function KeyOf(id: bytes, window: nat): bytes
  {
    PREFIX + id + [COLON] + Itoa(window)
  }

  function WindowOf(t: nat, windowSeconds: nat): nat
    requires windowSeconds > 0
  {
    t / 1000 / windowSeconds
  }

  // ---- Redis ----

  predicate Live(store: Store, k: bytes, t: nat)
  {
    k in store && (store[k].expires.None? || t <= store[k].expires.value)
  }

  /** INCR: a missing or expired key counts as zero and loses its expiry. */
  function Incr(store: Store, k: bytes, t: nat): Store
  {
    if Live(store, k, t) then store[k := store[k].(count := store[k].count + 1)]
    else store[k := Entry(1, None)]
  }

  function Expire(store: Store, k: bytes, t: nat, seconds: nat): Store
  {
    if Live(store, k, t) then store[k := store[k].(expires := Some(t + 1000 * seconds))] else store
  }

  /** `Allow`: the new store and the verdict. */
  function Allow(store: Store, r: Request, limit: int, windowSeconds: nat): (Store, bool)
    requires windowSeconds > 0
  {
    var k := KeyOf(r.id, WindowOf(r.t, windowSeconds));
    if r.fault.IncrLost? then (store, true)
    else
      var counted := Incr(store, k, r.t);
      if r.fault.IncrReplyLost? then (counted, true)
      else
        var n := counted[k].count;
        (if n == 1 && !r.fault.ExpireLost? then Expire(counted, k, r.t, windowSeconds) else counted, n <= limit)
  }

  function StoreAfter(rs: seq<Request>, limit: int, windowSeconds: nat): Store
    requires windowSeconds > 0
  {
    if rs == [] then map[]
    else Allow(StoreAfter(rs[..|rs| - 1], limit, windowSeconds), rs[|rs| - 1], limit, windowSeconds).0
  }

  /** The verdict on the last request of a sequence. */
  function Verdict(rs: seq<Request>, limit: int, windowSeconds: nat): bool
    requires windowSeconds > 0 && rs != []
  {
    Allow(StoreAfter(rs[..|rs| - 1], limit, windowSeconds), rs[|rs| - 1], limit, windowSeconds).1
  }

  // ---- keys ----

  lemma SplitAtLastColon(a: bytes, d: bytes, b: bytes, e: bytes)
    requires a + [COLON] + d == b + [COLON] + e
    requires COLON !in d && COLON !in e
    ensures a == b && d == e
  {
    var s := a + [COLON] + d;
    assert s[|a|] == COLON && s[|b|] == COLON;
    assert forall j | |a| < j < |s| :: s[j] == d[j - |a| - 1];
    assert forall j | |b| < j < |s| :: s[j] == (b + [COLON] + e)[j] == e[j - |b| - 1];
    assert |a| == |b|;
    assert s[..|a|] == a && s[..|b|] == b;
    assert s[|a| + 1..] == d && s[|b| + 1..] == e;
  }

  /** Different (identifier, window) pairs use different keys, whatever the identifier contains. */
  lemma KeysAreDistinct(id: bytes, w: nat, id': bytes, w': nat)
    requires KeyOf(id, w) == KeyOf(id', w')
    ensures id == id' && w == w'
  {
    SplitAtLastColon(PREFIX + id, Itoa(w), PREFIX + id', Itoa(w'));
    ItoaInjective(w, w');
    assert (PREFIX + id)[|PREFIX|..] == id && (PREFIX + id')[|PREFIX|..] == id';
  }

  // ---- the counter is the number of INCRs applied in the window ----

  predicate Counts(r: Request, id: bytes, w: nat, windowSeconds: nat)
    requires windowSeconds > 0
  {
    r.id == id && WindowOf(r.t, windowSeconds) == w && !r.fault.IncrLost?
  }

  function Applied(rs: seq<Request>, id: bytes, w: nat, windowSeconds: nat): nat
    requires windowSeconds > 0
  {
    if rs == [] then 0
    else Applied(rs[..|rs| - 1], id, w, windowSeconds) + (if Counts(rs[|rs| - 1], id, w, windowSeconds) then 1 else 0)
  }

  /** The entry of a window: absent if nothing was applied, else the exact count, not expiring before
      the window ends. */
  predicate EntryOk(store: Store, k: bytes, applied: nat, windowEnd: nat)
  {
    if applied == 0 then k !in store
    else
      && k in store && store[k].count == applied
      && (store[k].expires.Some? ==> windowEnd <= store[k].expires.value)
  }

  function WindowEnd(w: nat, windowSeconds: nat): nat
  {
    1000 * ((w + 1) * windowSeconds)
  }

  lemma InsideWindow(t: nat, windowSeconds: nat)
    requires windowSeconds > 0
    ensures t < WindowEnd(WindowOf(t, windowSeconds), windowSeconds) <= t + 1000 * windowSeconds
  {
    var s, w := t / 1000, WindowOf(t, windowSeconds);
    assert w * windowSeconds <= s < w * windowSeconds + windowSeconds;
    assert (w + 1) * windowSeconds == w * windowSeconds + windowSeconds;
  }

  /** A key's expiry never resets a window that is still running: after any requests, every window's
      entry holds exactly the number of INCRs applied to it. */
  lemma {:induction false} CounterIsExact(rs: seq<Request>, id: bytes, w: nat, limit: int, windowSeconds: nat)
    requires windowSeconds > 0
    ensures EntryOk(StoreAfter(rs, limit, windowSeconds), KeyOf(id, w),
                    Applied(rs, id, w, windowSeconds), WindowEnd(w, windowSeconds))
  {
    if rs != [] {
      var before, r := rs[..|rs| - 1], rs[|rs| - 1];
      var store := StoreAfter(before, limit, windowSeconds);
      CounterIsExact(before, id, w, limit, windowSeconds);
      InsideWindow(r.t, windowSeconds);
      if KeyOf(r.id, WindowOf(r.t, windowSeconds)) == KeyOf(id, w) {
        KeysAreDistinct(r.id, WindowOf(r.t, windowSeconds), id, w);
      }
      AllowKeepsEntry(store, r, KeyOf(id, w), Applied(before, id, w, windowSeconds), WindowEnd(w, windowSeconds),
                      limit, windowSeconds);
    }
  }

  lemma AllowKeepsEntry(store: Store, r: Request, k: bytes, applied: nat, end: nat, limit: int, windowSeconds: nat)
    requires windowSeconds > 0 && EntryOk(store, k, applied, end)
    requires KeyOf(r.id, WindowOf(r.t, windowSeconds)) == k ==> r.t < end <= r.t + 1000 * windowSeconds
    ensures EntryOk(Allow(store, r, limit, windowSeconds).0, k,
      applied + (if KeyOf(r.id, WindowOf(r.t, windowSeconds)) == k && !r.fault.IncrLost? then 1 else 0), end)
  {
  }

  /** If the first request counted in a window meets no error, its key expires windowSeconds after
      that request, whatever follows. */
  lemma {:induction false} KeyExpires(rs: seq<Request>, k: nat, id: bytes, w: nat, limit: int, windowSeconds: nat)
    requires windowSeconds > 0 && k < |rs|
    requires Counts(rs[k], id, w, windowSeconds) && rs[k].fault.NoFault? && Applied(rs[..k], id, w, windowSeconds) == 0
    ensures var store := StoreAfter(rs, limit, windowSeconds);
      KeyOf(id, w) in store && store[KeyOf(id, w)].expires == Some(rs[k].t + 1000 * windowSeconds)
  {
    var before, r := rs[..|rs| - 1], rs[|rs| - 1];
    CounterIsExact(before, id, w, limit, windowSeconds);
    InsideWindow(r.t, windowSeconds);
    if KeyOf(r.id, WindowOf(r.t, windowSeconds)) == KeyOf(id, w) {
      KeysAreDistinct(r.id, WindowOf(r.t, windowSeconds), id, w);
    }
    if k == |rs| - 1 {
      assert Live(Incr(StoreAfter(before, limit, windowSeconds), KeyOf(id, w), r.t), KeyOf(id, w), r.t);
    } else {
      assert before[..k] == rs[..k];
      KeyExpires(before, k, id, w, limit, windowSeconds);
    }
  }

  /** A request that meets no INCR error is allowed exactly while the requests counted in its own
      window, itself included, are within the limit. */
  lemma VerdictIsWindowCount(rs: seq<Request>, limit: int, windowSeconds: nat)
    requires windowSeconds > 0 && rs != []
    ensures var r := rs[|rs| - 1];
      Verdict(rs, limit, windowSeconds) <==>
        r.fault.IncrLost? || r.fault.IncrReplyLost?
        || Applied(rs, r.id, WindowOf(r.t, windowSeconds), windowSeconds) <= limit
  {
    var before, r := rs[..|rs| - 1], rs[|rs| - 1];
    CounterIsExact(before, r.id, WindowOf(r.t, windowSeconds), limit, windowSeconds);
    InsideWindow(r.t, windowSeconds);
  }

  // ---- passes per window ----

  predicate FailsOpen(r: Request)
  {
    r.fault.IncrLost? || r.fault.IncrReplyLost?
  }

  /** Requests of a window that passed by the count, not by an error. */
  function Passes(rs: seq<Request>, id: bytes, w: nat, limit: int, windowSeconds: nat): nat
    requires windowSeconds > 0
  {
    if rs == [] then 0
    else
      var r := rs[|rs| - 1];
      Passes(rs[..|rs| - 1], id, w, limit, windowSeconds)
      + (if r.id == id && WindowOf(r.t, windowSeconds) == w && !FailsOpen(r) && Verdict(rs, limit, windowSeconds) then 1 else 0)
  }

  function Budget(limit: int): nat
  {
    if limit < 0 then 0 else limit
  }

  /** No request of this identifier in this window met an INCR error. */
  predicate NoErrors(rs: seq<Request>, id: bytes, w: nat, windowSeconds: nat)
    requires windowSeconds > 0
  {
    forall i | 0 <= i < |rs| && rs[i].id == id && WindowOf(rs[i].t, windowSeconds) == w :: !FailsOpen(rs[i])
  }

  /** In one window an identifier never passes more often than the limit; without errors of its own
      in that window it passes exactly min(requests, limit) times, whatever befalls the others. */
  lemma {:induction false} PassesPerWindow(rs: seq<Request>, id: bytes, w: nat, limit: int, windowSeconds: nat)
    requires windowSeconds > 0
    ensures Passes(rs, id, w, limit, windowSeconds) <= Budget(limit)
    ensures Passes(rs, id, w, limit, windowSeconds) <= Applied(rs, id, w, windowSeconds)
    ensures NoErrors(rs, id, w, windowSeconds) ==>
      var requests := Applied(rs, id, w, windowSeconds);
      Passes(rs, id, w, limit, windowSeconds) == if requests <= Budget(limit) then requests else Budget(limit)
  {
    if rs != [] {
      var before, r := rs[..|rs| - 1], rs[|rs| - 1];
      PassesPerWindow(before, id, w, limit, windowSeconds);
      VerdictIsWindowCount(rs, limit, windowSeconds);
      assert NoErrors(rs, id, w, windowSeconds) ==> NoErrors(before, id, w, windowSeconds);
    }
  }

  // ---- passes in a span of time ----

  function PassesBetween(rs: seq<Request>, id: bytes, from: nat, n: nat, limit: int, windowSeconds: nat): nat
    requires windowSeconds > 0
  {
    if n == 0 then 0
    else PassesBetween(rs, id, from, n - 1, limit, windowSeconds) + Passes(rs, id, from + n - 1, limit, windowSeconds)
  }

  predicate InSpan(t: nat, start: nat, m: nat, windowSeconds: nat)
  {
    start <= t < start + 1000 * (m * windowSeconds)
  }

  /** Everything admitted for an identifier in a span of m windows' length, by count or by error. */
  function AdmittedIn(rs: seq<Request>, id: bytes, start: nat, m: nat, limit: int, windowSeconds: nat): nat
    requires windowSeconds > 0
  {
    if rs == [] then 0
    else
      var r := rs[|rs| - 1];
      AdmittedIn(rs[..|rs| - 1], id, start, m, limit, windowSeconds)
      + (if r.id == id && InSpan(r.t, start, m, windowSeconds) && Verdict(rs, limit, windowSeconds) then 1 else 0)
  }

  function ErrorsIn(rs: seq<Request>, id: bytes, start: nat, m: nat, windowSeconds: nat): nat
  {
    if rs == [] then 0
    else
      var r := rs[|rs| - 1];
      ErrorsIn(rs[..|rs| - 1], id, start, m, windowSeconds)
      + (if r.id == id && InSpan(r.t, start, m, windowSeconds) && FailsOpen(r) then 1 else 0)
  }

  lemma SpanTouchesWindows(t: nat, start: nat, m: nat, windowSeconds: nat)
    requires windowSeconds > 0 && InSpan(t, start, m, windowSeconds)
    ensures WindowOf(start, windowSeconds) <= WindowOf(t, windowSeconds) <= WindowOf(start, windowSeconds) + m
  {
    var a, b, w := start / 1000, t / 1000, windowSeconds;
    assert a <= b <= a + m * w;
    DivideMonotone(a, b, w);
    DivideMonotone(b, a + m * w, w);
    DivideShift(a, m, w);
  }

  lemma {:induction false} PassesBetweenStep(rs: seq<Request>, id: bytes, from: nat, n: nat, limit: int, windowSeconds: nat)
    requires windowSeconds > 0 && rs != []
    ensures var r, before := rs[|rs| - 1], rs[..|rs| - 1];
      PassesBetween(rs, id, from, n, limit, windowSeconds)
      == PassesBetween(before, id, from, n, limit, windowSeconds)
       + (if r.id == id && from <= WindowOf(r.t, windowSeconds) < from + n && !FailsOpen(r) && Verdict(rs, limit, windowSeconds)
          then 1 else 0)
  {
    if n > 0 {
      PassesBetweenStep(rs, id, from, n - 1, limit, windowSeconds);
    }
  }

  lemma {:induction false} PassesBetweenNone(id: bytes, from: nat, n: nat, limit: int, windowSeconds: nat)
    requires windowSeconds > 0
    ensures PassesBetween([], id, from, n, limit, windowSeconds) == 0
  {
    if n > 0 {
      PassesBetweenNone(id, from, n - 1, limit, windowSeconds);
    }
  }

  lemma {:induction false} PassesBetweenBound(rs: seq<Request>, id: bytes, from: nat, n: nat, limit: int, windowSeconds: nat)
    requires windowSeconds > 0
    ensures PassesBetween(rs, id, from, n, limit, windowSeconds) <= n * Budget(limit)
  {
    if n > 0 {
      PassesBetweenBound(rs, id, from, n - 1, limit, windowSeconds);
      PassesPerWindow(rs, id, from + n - 1, limit, windowSeconds);
      TimesStep(n - 1, Budget(limit));
    }
  }

  lemma {:induction false} AdmittedByWindows(rs: seq<Request>, id: bytes, start: nat, m: nat, limit: int, windowSeconds: nat)
    requires windowSeconds > 0
    ensures AdmittedIn(rs, id, start, m, limit, windowSeconds)
         <= PassesBetween(rs, id, WindowOf(start, windowSeconds), m + 1, limit, windowSeconds)
          + ErrorsIn(rs, id, start, m, windowSeconds)
  {
    if rs == [] {
      PassesBetweenNone(id, WindowOf(start, windowSeconds), m + 1, limit, windowSeconds);
    } else {
      var r := rs[|rs| - 1];
      AdmittedByWindows(rs[..|rs| - 1], id, start, m, limit, windowSeconds);
      PassesBetweenStep(rs, id, WindowOf(start, windowSeconds), m + 1, limit, windowSeconds);
      if InSpan(r.t, start, m, windowSeconds) {
        SpanTouchesWindows(r.t, start, m, windowSeconds);
      }
    }
  }

  /** Any span as long as m windows admits at most (m + 1) * limit requests of an identifier, plus the
      requests let through by Redis errors: the known factor two is m = 1. */
  lemma SpanIsBounded(rs: seq<Request>, id: bytes, start: nat, m: nat, limit: int, windowSeconds: nat)
    requires windowSeconds > 0
    ensures AdmittedIn(rs, id, start, m, limit, windowSeconds)
         <= (m + 1) * Budget(limit) + ErrorsIn(rs, id, start, m, windowSeconds)
  {
    AdmittedByWindows(rs, id, start, m, limit, windowSeconds);
    PassesBetweenBound(rs, id, WindowOf(start, windowSeconds), m + 1, limit, windowSeconds);
  }

  // ---- the objects ----

  class Redis {
    var store: Store

    constructor ()
      ensures store == map[]
    {
      store := map[];
    }

    method IncrKey(k: bytes, t: nat, fault: Fault) returns (n: Option<int>)
      modifies this
      ensures store == if fault.IncrLost? then old(store) else Incr(old(store), k, t)
      ensures n == if fault.IncrLost? || fault.IncrReplyLost? then None else Some(store[k].count)
    {
      if fault.IncrLost? {
        return None;
      }
      if k in store && (store[k].expires.None? || t <= store[k].expires.value) {
        store := store[k := store[k].(count := store[k].count + 1)];
      } else {
        store := store[k := Entry(1, None)];
      }
      n := if fault.IncrReplyLost? then None else Some(store[k].count);
    }

    method ExpireKey(k: bytes, t: nat, seconds: nat, fault: Fault)
      modifies this
      ensures store == if fault.ExpireLost? then old(store) else Expire(old(store), k, t, seconds)
    {
      if !fault.ExpireLost? && k in store && (store[k].expires.None? || t <= store[k].expires.value) {
        store := store[k := store[k].(expires := Some(t + 1000 * seconds))];
      }
    }
  }

  class Limiter {
    const redis: Redis
    const limit: int
    const windowSeconds: nat

    constructor (redis: Redis, limit: int, windowSeconds: nat)
      ensures this.redis == redis && this.limit == limit && this.windowSeconds == windowSeconds
    {
      this.redis, this.limit, this.windowSeconds := redis, limit, windowSeconds;
    }

    /** Serves one more request after `served`. */
    method AllowRequest(r: Request, ghost served: seq<Request>) returns (ok: bool)
      requires windowSeconds > 0 && redis.store == StoreAfter(served, limit, windowSeconds)
      modifies redis
      ensures redis.store == StoreAfter(served + [r], limit, windowSeconds)
      ensures ok == Verdict(served + [r], limit, windowSeconds)
    {
      assert (served + [r])[..|served|] == served;
      var window := r.t / 1000 / windowSeconds;
      var k := PREFIX + r.id + [COLON] + Itoa(window);
      var count := redis.IncrKey(k, r.t, r.fault);
      if count.None? {
        return true;
      }
      if count.value == 1 {
        redis.ExpireKey(k, r.t, windowSeconds, r.fault);
      }
      ok := count.value <= limit;
    }
  }
}
