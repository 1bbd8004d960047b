/** Where the answers served from the prediction cache come from, over interleaved handlers
    (backend/internal/cache/prediction_cache.go, lines 64-85, and
    backend/internal/handlers/handlers.go, lines 91-170). JSON is taken as a faithful round trip. */
module PredictionCache {
  import opened Bytes

  datatype Response = Response(seconds: int, minutes: real, km: real, modelVersion: string, requestId: string,
                               timestamp: string, cacheHit: bool)

  /** A handler serving one request, known by its key. */
  datatype Handler =
    | Looking(key: bytes)
    | Calling(key: bytes)                       // cache miss, or a failed or undecodable read
    | Answered(key: bytes, resp: Response)      // the ML client's answer, CacheHit cleared
    | Served(key: bytes, resp: Response, fromCache: bool)
    | Refused(key: bytes)                       // an error status, or nobody left to answer

  /** `returned` is the history of what the ML client has answered, by key. */
  datatype State = State(store: map<bytes, Response>, returned: set<(bytes, Response)>, handlers: seq<Handler>)

  datatype Event =
    | Lookup(h: nat, readOk: bool)
    | Answer(h: nat, resp: Response)
    | Refuse(h: nat)
    | Store(h: nat, applied: bool)   // a write may be lost, or applied though it reports an error
    | Expire(key: bytes)

  predicate Enabled(s: State, e: Event)
  {
    match e
    case Lookup(h, _) => h < |s.handlers| && s.handlers[h].Looking?
    case Answer(h, _) => h < |s.handlers| && s.handlers[h].Calling?
    case Refuse(h) => h < |s.handlers| && s.handlers[h].Calling?
    case Store(h, _) => h < |s.handlers| && s.handlers[h].Answered?
    case Expire(_) => true
  }

  function Step(s: State, e: Event): State
    requires Enabled(s, e)
  {
    match e
    case Lookup(h, readOk) =>
      var k := s.handlers[h].key;
      if readOk && k in s.store then
        s.(handlers := s.handlers[h := Served(k, s.store[k].(cacheHit := true), true)])
      else s.(handlers := s.handlers[h := Calling(k)])
    case Answer(h, resp) =>
      var k := s.handlers[h].key;
      s.(returned := s.returned + {(k, resp)}, handlers := s.handlers[h := Answered(k, resp.(cacheHit := false))])
    case Refuse(h) => s.(handlers := s.handlers[h := Refused(s.handlers[h].key)])
    case Store(h, applied) =>
      var k, resp := s.handlers[h].key, s.handlers[h].resp;
      s.(store := if applied then s.store[k := resp] else s.store,
         handlers := s.handlers[h := Served(k, resp, false)])
    case Expire(k) => s.(store := s.store - {k})
  }

  ghost predicate IsRun(states: seq<State>, events: seq<Event>)
  {
    && |states| == |events| + 1
    && forall i | 0 <= i < |events| :: StepAt(states, events, i)
  }

  ghost predicate StepAt(states: seq<State>, events: seq<Event>, i: nat)
    requires i < |events| < |states|
  {
    Enabled(states[i], events[i]) && states[i + 1] == Step(states[i], events[i])
  }

  predicate Init(s: State)
  {
    && s.store == map[] && s.returned == {}
    && forall h | 0 <= h < |s.handlers| :: s.handlers[h].Looking?
  }

  /** The ML client has answered this key with this response, up to `CacheHit`. */
  ghost predicate FromModel(returned: set<(bytes, Response)>, key: bytes, resp: Response)
  {
    exists r :: (key, r) in returned && r.(cacheHit := resp.cacheHit) == resp
  }

  ghost predicate Inv(s: State)
  {
    && (forall k | k in s.store :: !s.store[k].cacheHit && FromModel(s.returned, k, s.store[k]))
    && (forall h | 0 <= h < |s.handlers| :: HandlerOk(s, s.handlers[h]))
  }

  ghost predicate HandlerOk(s: State, h: Handler)
  {
    && (h.Answered? ==> !h.resp.cacheHit && FromModel(s.returned, h.key, h.resp))
    && (h.Served? ==> h.resp.cacheHit == h.fromCache && FromModel(s.returned, h.key, h.resp))
  }

  lemma FromModelGrows(a: set<(bytes, Response)>, b: set<(bytes, Response)>, key: bytes, resp: Response, hit: bool)
    requires a <= b && FromModel(a, key, resp)
    ensures FromModel(b, key, resp.(cacheHit := hit))
  {
    var r :| (key, r) in a && r.(cacheHit := resp.cacheHit) == resp;
    assert (key, r) in b && r.(cacheHit := hit) == resp.(cacheHit := hit);
  }

  lemma StepKeepsInv(s: State, e: Event)
    requires Inv(s) && Enabled(s, e)
    ensures Inv(Step(s, e))
  {
    var s' := Step(s, e);
    if e.Answer? {
      var k := s.handlers[e.h].key;
      assert (k, e.resp) in s'.returned && e.resp.(cacheHit := false) == s'.handlers[e.h].resp;
      assert FromModel(s'.returned, k, s'.handlers[e.h].resp);
    }
    forall k | k in s'.store
      ensures !s'.store[k].cacheHit && FromModel(s'.returned, k, s'.store[k])
    {
      if e.Store? && e.applied && k == s.handlers[e.h].key {
        assert HandlerOk(s, s.handlers[e.h]);
      } else {
        FromModelGrows(s.returned, s'.returned, k, s.store[k], false);
      }
    }
    forall h | 0 <= h < |s'.handlers|
      ensures HandlerOk(s', s'.handlers[h])
    {
      HandlerStaysOk(s, e, h);
    }
  }

  lemma HandlerStaysOk(s: State, e: Event, h: nat)
    requires Inv(s) && Enabled(s, e) && h < |s.handlers|
    ensures HandlerOk(Step(s, e), Step(s, e).handlers[h])
  {
    var s' := Step(s, e);
    var x := s.handlers[h];
    assert HandlerOk(s, x);
    if e.Answer? && h == e.h {
      assert (x.key, e.resp) in s'.returned && e.resp.(cacheHit := false) == s'.handlers[h].resp;
    } else if e.Lookup? && h == e.h && s'.handlers[h].Served? {
      FromModelGrows(s.returned, s'.returned, x.key, s.store[x.key], true);
    } else if x.Answered? || x.Served? {
      FromModelGrows(s.returned, s'.returned, x.key, x.resp, x.resp.cacheHit);
    }
  }

  lemma {:induction false} RunKeepsInv(states: seq<State>, events: seq<Event>, i: nat)
    requires IsRun(states, events) && Init(states[0]) && i < |states|
    ensures Inv(states[i])
  {
    if i > 0 {
      RunKeepsInv(states, events, i - 1);
      assert StepAt(states, events, i - 1);
      StepKeepsInv(states[i - 1], events[i - 1]);
    }
  }

  /** A response served as a cache hit equals, in every field but `CacheHit`, one the ML client had
      returned before that lookup for a request with the same key; and `CacheHit` tells the truth. */
  lemma HitsComeFromTheModel(states: seq<State>, events: seq<Event>, i: nat, h: nat)
    requires IsRun(states, events) && Init(states[0]) && i < |events| && StepAt(states, events, i)
    requires events[i].Lookup? && events[i].h == h && states[i + 1].handlers[h].Served?
    ensures var served := states[i + 1].handlers[h];
      && served.resp.cacheHit
      && exists r :: (states[i].handlers[h].key, r) in states[i].returned && r.(cacheHit := true) == served.resp
  {
    RunKeepsInv(states, events, i);
    var k := states[i].handlers[h].key;
    FromModelGrows(states[i].returned, states[i].returned, k, states[i].store[k], true);
  }

  /** The history records only answers of the ML client to a handler with that key. */
  lemma {:induction false} ReturnedByTheModel(states: seq<State>, events: seq<Event>, i: nat, k: bytes, r: Response)
    requires IsRun(states, events) && Init(states[0]) && i < |states|
    requires (k, r) in states[i].returned
    ensures exists j :: 0 <= j < i && AnswersFor(states, events, j, k, r)
  {
    assert StepAt(states, events, i - 1);
    if (k, r) in states[i - 1].returned {
      ReturnedByTheModel(states, events, i - 1, k, r);
    } else {
      assert AnswersFor(states, events, i - 1, k, r);
    }
  }

  ghost predicate AnswersFor(states: seq<State>, events: seq<Event>, j: nat, k: bytes, r: Response)
    requires j < |events| < |states|
  {
    events[j].Answer? && events[j].resp == r && events[j].h < |states[j].handlers| && states[j].handlers[events[j].h].key == k
  }

  /** Event `m` neither expires the key nor stores under it. */
  predicate Spares(states: seq<State>, events: seq<Event>, m: nat, k: bytes)
    requires m < |events| < |states|
  {
    && events[m] != Expire(k)
    && (events[m].Store? && events[m].applied && events[m].h < |states[m].handlers| ==> states[m].handlers[events[m].h].key != k)
  }

  lemma {:induction false} EntryStays(states: seq<State>, events: seq<Event>, i: nat, j: nat, k: bytes)
    requires IsRun(states, events) && i <= j < |states| && k in states[i].store
    requires forall m | i <= m < j :: Spares(states, events, m, k)
    ensures k in states[j].store && states[j].store[k] == states[i].store[k]
    decreases j - i
  {
    if i < j {
      EntryStays(states, events, i, j - 1, k);
      assert StepAt(states, events, j - 1) && Spares(states, events, j - 1, k);
    }
  }

  /** What was stored is what a later lookup with the same key is served, until the entry expires or is
      replaced. */
  lemma StoredAnswerIsServed(states: seq<State>, events: seq<Event>, i: nat, h: nat, j: nat, g: nat)
    requires IsRun(states, events) && i < j < |events|
    requires events[i] == Store(h, true) && StepAt(states, events, i) && events[j] == Lookup(g, true) && StepAt(states, events, j)
    requires states[j].handlers[g].key == states[i].handlers[h].key
    requires forall m | i < m < j :: Spares(states, events, m, states[i].handlers[h].key)
    ensures states[j + 1].handlers[g] == Served(states[i].handlers[h].key, states[i].handlers[h].resp.(cacheHit := true), true)
  {
    EntryStays(states, events, i + 1, j, states[i].handlers[h].key);
  }
}
