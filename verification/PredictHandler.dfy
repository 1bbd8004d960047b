/** The prediction endpoint as the object it is: `Predict` and `predictSync` of
    backend/internal/handlers/handlers.go, lines 79-170, over the cache of
    backend/internal/cache/prediction_cache.go, lines 64-85, and the worker pool.

    One request runs undisturbed here; PredictionCache has the interleavings. */
module PredictHandler {
  import opened Common
  import opened Bytes
  import opened PredictionCache
  import WorkerPool
  import opened WorkerPoolApi

  /** How the wait for the prediction ends. */
  datatype Completion = FromClient(resp: Response) | ClientError | CallerGone

  datatype Reply = Ok(resp: Response) | BadRequest | ServerBusy | BadGateway | Nothing

  /** The cache in front of Redis; `returned` is what the ML client has answered so far, by key. */
  class Cache {
    var store: map<bytes, Response>
    ghost var returned: set<(bytes, Response)>

    constructor ()
      ensures store == map[] && returned == {} && Valid()
    {
      store, returned := map[], {};
    }

    /** Every entry is an answer the ML client gave for its key, stored with `CacheHit` cleared. */
    ghost predicate Valid()
      reads this
    {
      Inv(PredictionCache.State(store, returned, []))
    }

    /** Any failure to read or decode is a miss. */
    method Get(key: bytes, readOk: bool) returns (r: Option<Response>)
      requires Valid()
      ensures r.Some? ==> !r.value.cacheHit && FromModel(returned, key, r.value)
      ensures r == if readOk && key in store then Some(store[key]) else None
    {
      if !readOk || key !in store {
        return None;
      }
      r := Some(store[key]);
    }

    /** The error returned is only logged; the write may have been applied all the same. */
    method Set(key: bytes, resp: Response, applied: bool)
      requires Valid() && !resp.cacheHit && FromModel(returned, key, resp)
      modifies this`store
      ensures Valid()
      ensures store == if applied then old(store)[key := resp] else old(store)
    {
      if applied {
        store := store[key := resp];
      }
    }

    /** The ML client answers a request with this key. */
    ghost method Record(key: bytes, resp: Response)
      requires Valid()
      modifies this`returned
      ensures Valid() && returned == old(returned) + {(key, resp)}
      ensures FromModel(returned, key, resp.(cacheHit := false))
    {
      ghost var before := returned;
      returned := returned + {(key, resp)};
      assert (key, resp) in returned && resp.(cacheHit := false) == resp.(cacheHit := false);
      forall k | k in store ensures FromModel(returned, k, store[k]) {
        FromModelGrows(before, returned, k, store[k], store[k].cacheHit);
      }
    }
  }

  class Handler {
    const cache: Cache
    const pool: Pool
    const syncMode: bool
    var hits: nat
    var misses: nat
    var events: seq<Response> // predictions broadcast to the dashboard

    constructor (cache: Cache, pool: Pool, syncMode: bool)
      ensures this.cache == cache && this.pool == pool && this.syncMode == syncMode
      ensures hits == 0 && misses == 0 && events == []
    {
      this.cache, this.pool, this.syncMode := cache, pool, syncMode;
      hits, misses, events := 0, 0, [];
    }

    /** A hit never reaches the pool and carries an answer the ML client gave earlier for this key. A
        miss takes one place in the queue, unless the pool is bypassed; a full or closing queue is the
        only cause of ServerBusy, and nothing but a fresh answer is ever stored. */
    method Predict(valid: bool, key: bytes, readOk: bool, contextEnded: bool, parked: Option<nat>, answer: Completion,
                   writeOk: bool)
      returns (reply: Reply)
      requires cache.Valid() && WorkerPool.Inv(pool.Abs()) && pool.MayBeParked(parked)
      modifies this, cache, pool
      ensures cache.Valid() && WorkerPool.Inv(pool.Abs())
      ensures !valid ==>
        reply == BadRequest && cache.store == old(cache.store) && pool.Abs() == old(pool.Abs())
        && cache.returned == old(cache.returned)
        && hits == old(hits) && misses == old(misses) && events == old(events)
      ensures valid ==> hits + misses == old(hits) + old(misses) + 1
      ensures valid ==> (hits == old(hits) + 1 <==> readOk && key in old(cache.store))
      ensures hits > old(hits) ==>
        && key in old(cache.store) && reply == Ok(old(cache.store)[key].(cacheHit := true))
        && (exists r :: (key, r) in old(cache.returned) && r.(cacheHit := true) == reply.resp)
        && cache.store == old(cache.store) && pool.Abs() == old(pool.Abs()) && cache.returned == old(cache.returned)
        && events == old(events) + [reply.resp]
      ensures misses > old(misses) && !syncMode ==>
        && (reply == ServerBusy <==> old(pool.closed) || (parked.None? && |old(pool.queue)| == pool.capacity))
        && (reply != ServerBusy ==> pool.Abs() == WorkerPool.Step(old(pool.Abs()), Submission(parked, contextEnded)))
        && (reply == ServerBusy ==>
              pool.Abs() == old(pool.Abs()) && cache.store == old(cache.store) && cache.returned == old(cache.returned))
        && events == if reply.Ok? then old(events) + [reply.resp] else old(events)
      ensures misses > old(misses) && syncMode ==>
        reply != ServerBusy && pool.Abs() == old(pool.Abs()) && events == old(events)
      ensures misses > old(misses) && reply != ServerBusy ==>
        match answer
        case FromClient(resp) =>
          && reply == Ok(resp.(cacheHit := false))
          && cache.returned == old(cache.returned) + {(key, resp)}
          && cache.store == if writeOk then old(cache.store)[key := resp.(cacheHit := false)] else old(cache.store)
        case ClientError =>
          reply == BadGateway && cache.returned == old(cache.returned) && cache.store == old(cache.store)
        case CallerGone =>
          && reply == (if syncMode then BadGateway else Nothing)
          && cache.returned == old(cache.returned) && cache.store == old(cache.store)
    {
      if !valid {
        return BadRequest;
      }
      var cached := cache.Get(key, readOk);
      if cached.Some? {
        hits := hits + 1;
        FromModelGrows(cache.returned, cache.returned, key, cached.value, true);
        reply := Ok(cached.value.(cacheHit := true));
        events := events + [reply.resp];
        return;
      }
      misses := misses + 1;
      reply := Ask(key, contextEnded, parked, answer, writeOk);
    }

    /** A miss: the prediction comes from the client, directly or through the pool. */
    method Ask(key: bytes, contextEnded: bool, parked: Option<nat>, answer: Completion, writeOk: bool) returns (reply: Reply)
      requires cache.Valid() && WorkerPool.Inv(pool.Abs()) && pool.MayBeParked(parked)
      modifies this`events, cache, pool
      ensures cache.Valid() && WorkerPool.Inv(pool.Abs())
      ensures reply == ServerBusy <==> !syncMode && (old(pool.closed) || (parked.None? && |old(pool.queue)| == pool.capacity))
      ensures reply == ServerBusy ==> cache.store == old(cache.store) && cache.returned == old(cache.returned)
      ensures pool.Abs() == if syncMode || reply == ServerBusy then old(pool.Abs())
                            else WorkerPool.Step(old(pool.Abs()), Submission(parked, contextEnded))
      ensures events == if reply.Ok? && !syncMode then old(events) + [reply.resp] else old(events)
      ensures reply != ServerBusy ==>
        match answer
        case FromClient(resp) =>
          && reply == Ok(resp.(cacheHit := false))
          && cache.returned == old(cache.returned) + {(key, resp)}
          && cache.store == if writeOk then old(cache.store)[key := resp.(cacheHit := false)] else old(cache.store)
        case ClientError =>
          reply == BadGateway && cache.returned == old(cache.returned) && cache.store == old(cache.store)
        case CallerGone =>
          && reply == (if syncMode then BadGateway else Nothing)
          && cache.returned == old(cache.returned) && cache.store == old(cache.store)
    {
      if syncMode {
        // The client's call reports a caller that has gone as an error.
        reply := Finish(key, if answer.CallerGone? then ClientError else answer, writeOk);
        return;
      }
      var accepted := pool.Submit(contextEnded, parked);
      if !accepted.Accepted? {
        return ServerBusy;
      }
      reply := Finish(key, answer, writeOk);
      if reply.Ok? {
        events := events + [reply.resp];
      }
    }

    /** What both paths do with the client's answer. */
    method Finish(key: bytes, answer: Completion, writeOk: bool) returns (reply: Reply)
      requires cache.Valid()
      modifies cache
      ensures cache.Valid()
      ensures match answer
        case FromClient(resp) =>
          && reply == Ok(resp.(cacheHit := false))
          && cache.returned == old(cache.returned) + {(key, resp)}
          && cache.store == if writeOk then old(cache.store)[key := resp.(cacheHit := false)] else old(cache.store)
        case ClientError =>
          reply == BadGateway && cache.returned == old(cache.returned) && cache.store == old(cache.store)
        case CallerGone =>
          reply == Nothing && cache.returned == old(cache.returned) && cache.store == old(cache.store)
    {
      match answer {
        case ClientError => reply := BadGateway;
        case CallerGone => reply := Nothing;
        case FromClient(resp) =>
          cache.Record(key, resp);
          var cleared := resp.(cacheHit := false);
          cache.Set(key, cleared, writeOk);
          reply := Ok(cleared);
      }
    }
  }
}
