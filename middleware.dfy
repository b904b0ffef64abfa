/** `CacheMiddleware`: answers a balance read from the cache when it can. */
module CacheMiddleware {
  import opened Wrappers
  import opened Errors
  import opened Server

  /** Whether the route's next handler runs, or the request ends here with a response. */
  datatype Decision = Next | Abort(response: Response)

  /**
   * The three-way decision on what `Get` returned for the raw `wallet_id` path text: a miss
   * hands over to the next handler, any other error ends the request with a 500 carrying the
   * error value, and a hit ends it with a 200 envelope holding the cached string.
   */
  function Decide(got: Result<string, Error>): (d: Decision)
    ensures d.Next? <==> got == Failure(CacheNil)
    ensures got.Failure? && got.error != CacheNil ==> d == Abort(Response(StatusInternalServerError, RawError(got.error)))
    ensures got.Success? ==> d == Abort(Response(StatusOK, Envelope(true, "", Balance(got.value))))
  {
    match got
    case Failure(CacheNil) => Next
    case Failure(e) => Abort(Response(StatusInternalServerError, RawError(e)))
    case Success(balance) => Abort(Response(StatusOK, Envelope(true, "", Balance(balance))))
  }

  /**
   * What the go-redis client's `Get(...).Result()` gives back: the stored string, the client's
   * `redis.Nil` for a missing key, or another error (a refused connection, a timeout).
   */
  datatype RedisReply = RedisValue(value: string) | RedisNil | RedisError(error: Error)

  /**
   * `RedisCache.Get`: the client's `redis.Nil` is mapped to `("", nil)` instead of `ErrNil`,
   * and every other error is passed on. The middleware then takes a miss for a hit on the
   * empty string.
   */
  function RedisGetAsWritten(reply: RedisReply): (r: Result<string, Error>)
    ensures r.Success? <==> !reply.RedisError?
    ensures reply.RedisValue? ==> r == Success(reply.value)
    ensures reply.RedisNil? ==> r == Success("")
    ensures reply.RedisError? ==> r == Failure(reply.error)
  {
    match reply
    case RedisValue(v) => Success(v)
    case RedisNil => Success("")
    case RedisError(e) => Failure(e)
  }

  /**
   * With that client a miss never reaches the balance handler: it is answered 200 with an
   * empty balance. A client error other than a miss is still answered 500.
   */
  lemma RedisMissAnsweredAsHit()
    ensures Decide(RedisGetAsWritten(RedisNil)) == Abort(Response(StatusOK, Envelope(true, "", Balance(""))))
    ensures forall reply: RedisReply :: (reply.RedisError? ==> reply.error != CacheNil) ==> !Decide(RedisGetAsWritten(reply)).Next?
    ensures forall e :: e != CacheNil ==>
              Decide(RedisGetAsWritten(RedisError(e))) == Abort(Response(StatusInternalServerError, RawError(e)))
  {
  }
}
