/** What the three caches have in common: the expiry test, the outcome of a
    remote fetch, and what a lookup and a completed fetch hand to the caller's
    callback. */
module Caching {
  import opened Lang

  /** A record captured at `capturedAt` is still fresh at `now` while less
      than `ttl` has elapsed (all three in the same unit). */
  predicate Fresh(capturedAt: int, now: int, ttl: int)
  {
    now - capturedAt < ttl
  }

  /** Freshness only ever runs out: a record stale at `t1` is stale at every
      later `t2`. */
  lemma StaleStaysStale(capturedAt: int, t1: int, t2: int, ttl: int)
    requires t1 <= t2 && !Fresh(capturedAt, t1, ttl)
    ensures !Fresh(capturedAt, t2, ttl)
  {
  }

  /** Every entry of `part` is an entry of `whole`: what a filtered listing of
      a cache returns. */
  predicate IsSubMap<K, V(==)>(part: map<K, V>, whole: map<K, V>)
  {
    forall k :: k in part ==> k in whole && part[k] == whole[k]
  }

  /** What one remote fetch did: returned a (decoded) payload, failed with an
      `IOException`, or failed with an unchecked exception (a malformed JSON
      body, an identifier that does not parse). */
  datatype Fetch<+P> = Fetched(payload: P) | IoFailure(message: string) | RuntimeFailure(message: string)

  /** What a lookup does before returning to its caller: call the callback with
      a cached record (`answer`), and/or hand a fetch task to the executor
      (`fetch`). */
  datatype Action<+R> = Action(answer: Option<R>, fetch: bool)

  /** The arguments of one callback invocation: `(record, null)` or
      `(null, exception)`. */
  datatype Delivery<+R> = Delivered(record: R) | Failed(error: Exception)
}
