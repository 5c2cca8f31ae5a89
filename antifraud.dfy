/** The anti-fraud check consulted before an activation: at most two POSTs to the
    external service, the first 200 reply's body is the verdict, no 200 at all is a
    refusal. The layered service caches a verdict in Redis under
    `antifraud:{email}:{promo_id}` until the `cache_until` instant the body names;
    the older router has no cache. The service is an oracle giving the reply to each
    attempt; time is whole seconds. */
module Antifraud {
  import opened Base
  import opened Uuids

  /** The body of a 200 reply: the `ok` flag and the `cache_until` instant, each
      possibly missing. */
  datatype Verdict = Verdict(ok: Option<bool>, cacheUntil: Option<Instant>)

  /** What one POST yields: a status and a body, or a transport failure (an
      exception the handler does not catch). */
  datatype Reply = Response(status: int, body: Verdict) | ConnectionError

  /** The reply to attempt number 0, 1, ... */
  type Oracle = nat -> Reply

  const MaxAttempts: nat := 2

  predicate NotOk(rep: Reply)
  {
    rep.Response? && rep.status != 200
  }

  /** The retry loop from attempt `from` on, before any caching. */
  datatype Exchange = Accepted(body: Verdict, attempt: nat) | Refused | Failed(attempt: nat)

  function Attempt(reply: Oracle, from: nat): (r: Exchange)
    decreases MaxAttempts - from
    // the first 200 reply is taken, and only after every earlier attempt answered otherwise
    ensures r.Accepted? ==>
      from <= r.attempt < MaxAttempts && reply(r.attempt) == Response(200, r.body) &&
      forall i :: from <= i < r.attempt ==> NotOk(reply(i))
    // a refusal means every remaining attempt answered, and none with 200
    ensures r.Refused? <==> forall i :: from <= i < MaxAttempts ==> NotOk(reply(i))
    ensures r.Failed? ==>
      from <= r.attempt < MaxAttempts && reply(r.attempt).ConnectionError? &&
      forall i :: from <= i < r.attempt ==> NotOk(reply(i))
  {
    if from >= MaxAttempts then Refused
    else
      match reply(from)
      case ConnectionError => Failed(from)
      case Response(status, body) =>
        if status == 200 then Accepted(body, from) else Attempt(reply, from + 1)
  }

  /** The number of POSTs the loop sends. */
  function AttemptsSent(e: Exchange): nat
  {
    match e
    case Accepted(_, i) => i + 1
    case Failed(i) => i + 1
    case Refused => MaxAttempts
  }

  datatype CacheEntry = CacheEntry(verdict: Verdict, expiry: Instant)

  function CacheKey(email: string, promoId: Uuid): string
  {
    "antifraud:" + email + ":" + UuidToString(promoId)
  }

  /** The cached verdict under `key` that has not expired at `now`. */
  function Live(entries: map<string, CacheEntry>, key: string, now: Instant): Option<Verdict>
  {
    if key in entries && now < entries[key].expiry then Some(entries[key].verdict) else None
  }

  /** A verdict may be cached only when it names an expiry strictly in the future. A
      missing `cache_until` makes `fromisoformat` raise `ValueError`, which the
      application answers with 400; a non-positive lifetime is refused by Redis, an
      error nothing catches (500). */
  predicate Cacheable(v: Verdict, now: Instant)
  {
    v.cacheUntil.Some? && v.cacheUntil.value - now > 0
  }

  /** The status of a 200 body that cannot be cached: a missing `cache_until` makes
      `fromisoformat` raise `ValueError` (400), a lifetime that is not positive a 500. */
  function UncacheableError(v: Verdict): Error
  {
    if v.cacheUntil.None? then BadRequest else ServerError
  }

  /** The result of `call_antifraud_service` in the layered service. */
  function Consult(cached: Option<Verdict>, reply: Oracle, now: Instant): (r: Result<Verdict>)
    // a live cache entry is returned as it is
    ensures cached.Some? ==> r == Ok(cached.value)
    // fail closed: without a cache hit, a verdict is always the body of a 200 reply
    ensures cached.None? && r.Ok? ==>
      exists i :: 0 <= i < MaxAttempts && reply(i) == Response(200, r.value)
    // and one that can be stored, so a fetched verdict always enters the cache
    ensures cached.None? && r.Ok? ==> Cacheable(r.value, now)
    ensures cached.None? && (forall i :: 0 <= i < MaxAttempts ==> NotOk(reply(i))) ==>
      r == Err(Forbidden)
    // a 200 body without `cache_until` is a 400, any other failure a 500
    ensures cached.None? && Attempt(reply, 0).Accepted? && Attempt(reply, 0).body.cacheUntil.None? ==>
      r == Err(BadRequest)
    ensures r.Err? ==> r.error in {Forbidden, BadRequest, ServerError}
  {
    if cached.Some? then Ok(cached.value)
    else
      match Attempt(reply, 0)
      case Refused => Err(Forbidden)
      case Failed(_) => Err(ServerError)
      case Accepted(body, _) => if Cacheable(body, now) then Ok(body) else Err(UncacheableError(body))
  }

  /** The cache after a call: a verdict fetched from the service is stored under the
      key until its `cache_until`; a hit or a failure leaves the cache as it was. */
  function CacheAfter(entries: map<string, CacheEntry>, key: string, reply: Oracle, now: Instant)
    : map<string, CacheEntry>
  {
    var r := Consult(Live(entries, key, now), reply, now);
    if Live(entries, key, now).None? && r.Ok? then entries[key := CacheEntry(r.value, r.value.cacheUntil.value)]
    else entries
  }

  class VerdictCache {
    var entries: map<string, CacheEntry>

    constructor ()
      ensures entries == map[]
    {
      entries := map[];
    }

    /** `call_antifraud_service` of the layered service: a live entry answers without
        any request; otherwise up to two attempts, and a 200 body is stored until its
        `cache_until` before it is returned. */
    method CallAntifraud(email: string, promoId: Uuid, now: Instant, reply: Oracle)
      returns (r: Result<Verdict>, attempts: nat)
      modifies this
      ensures r == Consult(Live(old(entries), CacheKey(email, promoId), now), reply, now)
      ensures Live(old(entries), CacheKey(email, promoId), now).Some? ==> attempts == 0
      ensures Live(old(entries), CacheKey(email, promoId), now).None? ==>
        attempts == AttemptsSent(Attempt(reply, 0))
      ensures attempts <= MaxAttempts
      ensures entries == CacheAfter(old(entries), CacheKey(email, promoId), reply, now)
    {
      var key := CacheKey(email, promoId);
      var cached := Live(entries, key, now);
      if cached.Some? {
        return Ok(cached.value), 0;
      }
      var i := 0;
      while i < MaxAttempts
        invariant 0 <= i <= MaxAttempts
        invariant Attempt(reply, i) == Attempt(reply, 0)
        invariant entries == old(entries)
      {
        var rep := reply(i);
        if rep.ConnectionError? {
          return Err(ServerError), i + 1;
        }
        if rep.status == 200 {
          var body := rep.body;
          if !Cacheable(body, now) {
            return Err(UncacheableError(body)), i + 1;
          }
          entries := entries[key := CacheEntry(body, body.cacheUntil.value)];
          return Ok(body), i + 1;
        }
        i := i + 1;
      }
      return Err(Forbidden), MaxAttempts;
    }
  }

  /** A verdict the call stored answers every later call with the same e-mail and
      promo until it expires, with no request sent. */
  lemma CachedVerdictReused(entries: map<string, CacheEntry>, email: string, promoId: Uuid,
                            v: Verdict, later: Instant, reply: Oracle)
    requires v.cacheUntil.Some? && later < v.cacheUntil.value
    ensures Consult(Live(entries[CacheKey(email, promoId) := CacheEntry(v, v.cacheUntil.value)],
                         CacheKey(email, promoId), later), reply, later) == Ok(v)
  {
  }

  /** The result of `call_antifraud_service` in the older router: the first 200 body
      whatever it holds, 403 when no attempt answers 200. */
  function ConsultLegacy(reply: Oracle): (r: Result<Verdict>)
    ensures r.Ok? ==> exists i :: 0 <= i < MaxAttempts && reply(i) == Response(200, r.value)
    ensures r.Ok? <==> exists i :: 0 <= i < MaxAttempts && reply(i).Response? && reply(i).status == 200 &&
                                   forall k :: 0 <= k < i ==> NotOk(reply(k))
    ensures (forall i :: 0 <= i < MaxAttempts ==> NotOk(reply(i))) ==> r == Err(Forbidden)
  {
    match Attempt(reply, 0)
    case Refused => Err(Forbidden)
    case Failed(_) => Err(ServerError)
    case Accepted(body, _) => Ok(body)
  }

  /** The older router's loop: one fresh session per attempt, no cache. */
  method CallAntifraudLegacy(reply: Oracle) returns (r: Result<Verdict>, attempts: nat)
    ensures r == ConsultLegacy(reply)
    ensures attempts == AttemptsSent(Attempt(reply, 0)) && 1 <= attempts <= MaxAttempts
  {
    var i := 0;
    while i < MaxAttempts
      invariant 0 <= i <= MaxAttempts
      invariant Attempt(reply, i) == Attempt(reply, 0)
    {
      var rep := reply(i);
      if rep.ConnectionError? {
        return Err(ServerError), i + 1;
      }
      if rep.status == 200 {
        return Ok(rep.body), i + 1;
      }
      i := i + 1;
    }
    return Err(Forbidden), MaxAttempts;
  }
}
