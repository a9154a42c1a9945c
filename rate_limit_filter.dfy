/**
 * Per-client request limiting. The client is the first entry of a non-empty
 * X-Forwarded-For header, trimmed, or else the connection's remote address.
 * Each client gets its own bucket of 100 tokens on its first request; a
 * request that can take a token goes on down the chain, any other is answered
 * with status 429 and a JSON error. The bucket's refill of 100 tokens a minute
 * belongs to the bucket library and is not part of this model, so a bucket
 * here only drains.
 */
module RateLimitFilter {
  import opened Common
  import opened JavaStrings

  /** Bandwidth.classic(100, ...): the size of a new bucket. */
  const CAPACITY: nat := 100
  const TOO_MANY_REQUESTS: int := 429
  const ERROR_BODY: string := "{\"error\": \"Too many requests. Please try again later.\"}"

  /**
   * getClientIp: the first comma-separated entry of a non-empty forwarded
   * header, trimmed; the remote address without one. A header made of commas
   * only splits into no entry at all, and reading entry 0 of it fails.
   */
  function ClientIp(forwardedFor: Option<string>, remoteAddr: string): (r: Result<string>)
    ensures forwardedFor.None? || forwardedFor.value == [] ==> r == Ok(remoteAddr)
    ensures forwardedFor.Some? && forwardedFor.value != [] ==>
      (r.Err? <==> OnlySeparators(forwardedFor.value, ','))
    ensures r.Err? ==> r.error == IndexOutOfBounds
  {
    if forwardedFor.Some? && forwardedFor.value != [] then
      var parts := Split(forwardedFor.value, ',');
      SplitHead(forwardedFor.value, ',');
      if |parts| == 0 then Err(IndexOutOfBounds) else Ok(Trim(parts[0]))
    else Ok(remoteAddr)
  }

  /** The client is the text before the first comma, with the surrounding blanks gone. */
  lemma FirstEntryIsClient(first: string, rest: string, remoteAddr: string)
    requires ',' !in first && exists i :: 0 <= i < |first| && !Blank(first[i])
    ensures ClientIp(Some(first + "," + rest), remoteAddr) == Ok(Trim(first))
  {
    var h := first + "," + rest;
    SplitHead(h, ',');
    var k := IndexOf(h, ',').value;
    assert h[|first|] == ',';
    assert h[..|first|] == first;
    assert k == |first| by {
      assert h[k] == ',';
      assert h[..k] == first[..k] || k >= |first|;
    }
    var i :| 0 <= i < |first| && !Blank(first[i]);
    assert h[i] != ',';
  }

  /** The remaining tokens of a client's bucket: a client never seen has a full one. */
  function Remaining(buckets: map<string, nat>, key: string): (n: nat)
    ensures key !in buckets ==> n == CAPACITY
  {
    if key in buckets then buckets[key] else CAPACITY
  }

  /** computeIfAbsent followed by tryConsume(1): whether a token was taken, and the buckets after. */
  function Consume(buckets: map<string, nat>, key: string): (r: (map<string, nat>, bool))
    ensures r.1 <==> Remaining(buckets, key) >= 1
    ensures key in r.0 && r.0[key] == (if r.1 then Remaining(buckets, key) - 1 else 0)
    ensures forall k :: k != key ==> Remaining(r.0, k) == Remaining(buckets, k)
    ensures r.0.Keys == buckets.Keys + {key}
  {
    var n := Remaining(buckets, key);
    if n >= 1 then (buckets[key := n - 1], true) else (buckets[key := n], false)
  }

  /** n requests of one client in a row: the buckets after, and how many went through. */
  function ConsumeMany(buckets: map<string, nat>, key: string, n: nat): (map<string, nat>, nat)
  {
    if n == 0 then (buckets, 0)
    else
      var before := ConsumeMany(buckets, key, n - 1);
      var after := Consume(before.0, key);
      (after.0, before.1 + if after.1 then 1 else 0)
  }

  /**
   * Of n requests in a row, as many go through as the bucket had tokens, at
   * most n, and the bucket is that much lower; other clients are not touched.
   */
  lemma {:induction false} ConsumeManyCounts(buckets: map<string, nat>, key: string, n: nat)
    ensures var r := ConsumeMany(buckets, key, n);
      r.1 == (if n <= Remaining(buckets, key) then n else Remaining(buckets, key))
      && Remaining(r.0, key) == Remaining(buckets, key) - r.1
      && forall k :: k != key ==> Remaining(r.0, k) == Remaining(buckets, k)
  {
    if n > 0 {
      ConsumeManyCounts(buckets, key, n - 1);
    }
  }

  /** A new client gets exactly 100 requests through; the 101st is refused. */
  lemma NewClientGetsHundred(buckets: map<string, nat>, key: string)
    requires key !in buckets
    ensures ConsumeMany(buckets, key, CAPACITY).1 == CAPACITY
    ensures !Consume(ConsumeMany(buckets, key, CAPACITY).0, key).1
  {
    ConsumeManyCounts(buckets, key, CAPACITY);
  }

  /** What happens to a request: forwarded, refused with 429, or failed while reading the client address. */
  datatype Outcome = Forwarded | Rejected(status: int, body: string) | Failed(error: ErrorCode)

  /** The filter with its map of buckets by client. */
  class RateLimiter {
    var buckets: map<string, nat>

    /** No bucket holds more than a new one. */
    ghost predicate Valid()
      reads this
    {
      forall k :: k in buckets ==> buckets[k] <= CAPACITY
    }

    constructor ()
      ensures Valid() && buckets == map[]
    {
      buckets := map[];
    }

    /**
     * doFilter: the client's bucket is created if absent and asked for one
     * token; the request goes on exactly when it got one. A failure to read
     * the client address leaves the buckets alone.
     */
    method DoFilter(forwardedFor: Option<string>, remoteAddr: string) returns (o: Outcome)
      requires Valid()
      modifies this
      ensures Valid()
      ensures var ip := ClientIp(forwardedFor, remoteAddr);
        (ip.Err? ==> o == Failed(ip.error) && buckets == old(buckets))
        && (ip.Ok? ==> buckets == Consume(old(buckets), ip.value).0
                       && (o == Forwarded <==> Consume(old(buckets), ip.value).1)
                       && (o != Forwarded ==> o == Rejected(TOO_MANY_REQUESTS, ERROR_BODY)))
    {
      var ip := ClientIp(forwardedFor, remoteAddr);
      if ip.Err? {
        return Failed(ip.error);
      }
      var key := ip.value;
      if key !in buckets {
        buckets := buckets[key := CAPACITY];
      }
      if buckets[key] >= 1 {
        buckets := buckets[key := buckets[key] - 1];
        o := Forwarded;
      } else {
        o := Rejected(TOO_MANY_REQUESTS, ERROR_BODY);
      }
    }
  }
}
