/** RateLimitInterceptor: before every handler, take one token from the
    client's bucket and either let the request through or answer 429 with
    the time to wait. The bucket's answer (Bucket4j's ConsumptionProbe) comes
    from a supplied `consume` function of the bucket and the token count. */
module RateLimitInterceptor {
  import opened Wrappers
  import opened JavaText
  import opened Http
  import opened RateLimiting
  import UrlController

  const TokensPerRequest: nat := 1
  const NanosPerSecond: nat := 1_000_000_000
  const ShortenPath: string := "/shorten"
  const RemainingHeader: string := "X-Rate-Limit-Remaining"
  const RetryAfterHeader: string := "X-Rate-Limit-Retry-After-Seconds"
  const TooManyRequestsPrefix: string := "{\"error\": \"Too many requests\", \"message\": \"Rate limit exceeded. Please try again in "
  const TooManyRequestsSuffix: string := " seconds.\"}"

  // ---------------------------------------------------------------------------
  // getClientIP

  /** The ArrayIndexOutOfBoundsException of `split(",")[0]` on a header made
      of commas only. */
  datatype ClientIpError = NoFirstElement(header: string)

  /** getClientIP: the remote address without an X-Forwarded-For header;
      otherwise the first element of the header split at commas. */
  function GetClientIp(xForwardedFor: Option<string>, remoteAddr: string): (r: Result<string, ClientIpError>)
    ensures xForwardedFor.None? ==> r == Success(remoteAddr)
    ensures xForwardedFor.Some? ==> (r.Failure? <==> xForwardedFor.value != "" && OnlyChar(xForwardedFor.value, ','))
    ensures xForwardedFor.Some? && r.Success? ==>
      var h := xForwardedFor.value;
      && StartsWith(h, r.value)
      && ',' !in r.value
      && (|r.value| < |h| ==> h[|r.value|] == ',')
  {
    if xForwardedFor.None? then Success(remoteAddr)
    else
      var h := xForwardedFor.value;
      SplitFirst(h, ',');
      var parts := Split(h, ',');
      if parts == [] then Failure(NoFirstElement(h))
      else
        Success(parts[0])
  }

  /** Unlike the controller's extraction, nothing is trimmed: the text before
      the first comma comes back with its blanks. */
  lemma ClientIpKeepsBlanks(client: string, rest: string)
    requires client != "" && ',' !in client
    ensures GetClientIp(Some(client + "," + rest), "") == Success(client)
  {
    var h := client + "," + rest;
    assert h[|client|] == ',' && h[..|client|] == client;
    IndexOfAt(h, ',', |client|);
    assert !OnlyChar(h, ',') by { assert h[0] == client[0]; }
  }

  /** Where the two extractions part: an empty X-Forwarded-For is the
      interceptor's client key, while the controller passes it over. */
  lemma EmptyForwardedDisagrees(request: Request)
    requires request.xForwardedFor == Some("")
    ensures GetClientIp(request.xForwardedFor, request.remoteAddr) == Success("")
    ensures UrlController.ExtractClientIp(request) ==
      if UrlController.IsKnownHeader(request.xRealIp) then request.xRealIp.value else request.remoteAddr
  {
  }

  // ---------------------------------------------------------------------------
  // preHandle

  /** Bucket4j's ConsumptionProbe, as Java longs. */
  datatype Probe = Probe(consumed: bool, remainingTokens: int, nanosToWaitForRefill: int)

  /** Java's long division by 1_000_000_000, truncating toward zero. */
  function WholeSeconds(nanos: int): (s: int)
    ensures nanos >= 0 ==> 0 <= s && s * NanosPerSecond <= nanos < (s + 1) * NanosPerSecond
    ensures nanos < 0 ==> s <= 0 && -nanos - NanosPerSecond < -s * NanosPerSecond <= -nanos
  {
    if nanos >= 0 then nanos / NanosPerSecond else -((-nanos) / NanosPerSecond)
  }

  /** What preHandle does with the response: whether the handler runs, the
      status it sets (None leaves the default), the headers it adds and the
      body it writes. */
  datatype Admission = Admission(proceed: bool, status: Option<nat>, headers: seq<Header>, body: string)

  /** The 429 body: a JSON object whose message carries the seconds. */
  function TooManyRequestsBody(seconds: int): (body: string)
    ensures |body| == |TooManyRequestsPrefix| + |IntToDecimal(seconds)| + |TooManyRequestsSuffix|
    ensures StartsWith(body, TooManyRequestsPrefix)
    ensures body[|TooManyRequestsPrefix|..|body| - |TooManyRequestsSuffix|] == IntToDecimal(seconds)
    ensures body[|body| - |TooManyRequestsSuffix|..] == TooManyRequestsSuffix
  {
    TooManyRequestsPrefix + IntToDecimal(seconds) + TooManyRequestsSuffix
  }

  /** The probe's verdict: a consumed token lets the request through with the
      tokens left in a header; otherwise 429, and the whole seconds to wait in
      a header and, the same number, in the JSON body. */
  function Decide(probe: Probe): (a: Admission)
    ensures a.proceed <==> probe.consumed
    ensures a.proceed <==> a.status.None?
    ensures !a.proceed ==> a.status == Some(StatusTooManyRequests)
    ensures |a.headers| == 1
    ensures a.proceed ==> a.headers[0] == Header(RemainingHeader, IntToDecimal(probe.remainingTokens)) && a.body == ""
    ensures !a.proceed ==>
      a.headers[0].name == RetryAfterHeader && a.body == TooManyRequestsPrefix + a.headers[0].value + TooManyRequestsSuffix
  {
    if probe.consumed then
      Admission(true, None, [Header(RemainingHeader, IntToDecimal(probe.remainingTokens))], "")
    else
      var waitForRefill := WholeSeconds(probe.nanosToWaitForRefill);
      Admission(false, Some(StatusTooManyRequests), [Header(RetryAfterHeader, IntToDecimal(waitForRefill))],
                TooManyRequestsBody(waitForRefill))
  }

  /** A client reading the Retry-After-Seconds header gets the wait rounded
      down to whole seconds: the header is plain digits whose value n
      satisfies n seconds <= the wait < n + 1 seconds. */
  lemma RetryAfterRoundsDown(probe: Probe)
    requires !probe.consumed && probe.nanosToWaitForRefill >= 0
    ensures var v := Decide(probe).headers[0].value;
      && IsDigits(v)
      && DecimalValue(v) * NanosPerSecond <= probe.nanosToWaitForRefill < (DecimalValue(v) + 1) * NanosPerSecond
  {
    DecimalRoundTrip(WholeSeconds(probe.nanosToWaitForRefill));
  }

  /** The Remaining header reads back as the probe's remaining tokens. */
  lemma RemainingReadsBack(probe: Probe)
    requires probe.consumed && probe.remainingTokens >= 0
    ensures var v := Decide(probe).headers[0].value;
      IsDigits(v) && DecimalValue(v) == probe.remainingTokens
  {
    DecimalRoundTrip(probe.remainingTokens);
  }

  /** The bucket a path is charged to: "/shorten" exactly, or every other path. */
  function BucketKindFor(path: string): (kind: BucketKind)
    ensures kind == Shortening <==> path == ShortenPath
  {
    if path == ShortenPath then Shortening else Redirect
  }

  /** preHandle: the client key, then the bucket for the path, then one token.
      A header of commas only makes getClientIP throw before any bucket is
      resolved, so the map is left as it was. */
  method PreHandle(config: RateLimitConfig, request: Request, consume: (Bucket, nat) -> Probe)
    returns (r: Result<Admission, ClientIpError>)
    modifies config
    ensures var ip := GetClientIp(request.xForwardedFor, request.remoteAddr);
      ip.Failure? ==> r == Failure(ip.error) && config.cache == old(config.cache)
    ensures var ip := GetClientIp(request.xForwardedFor, request.remoteAddr);
      ip.Success? ==>
        var res := Resolve(old(config.cache), ip.value, BucketKindFor(request.requestUri));
        config.cache == res.cache && r == Success(Decide(consume(res.bucket, TokensPerRequest)))
  {
    var clientIp := GetClientIp(request.xForwardedFor, request.remoteAddr);
    if clientIp.Failure? {
      return Failure(clientIp.error);
    }
    var path := request.requestUri;
    var bucket;
    if path == ShortenPath {
      bucket := config.ResolveShorteningBucket(clientIp.value);
    } else {
      bucket := config.ResolveRedirectBucket(clientIp.value);
    }
    var probe := consume(bucket, TokensPerRequest);
    r := Success(Decide(probe));
  }
}
