/** UrlController: the shorten endpoint, the redirect with its click
    recording, the analytics endpoint, and the client-address extraction. */
module UrlController {
  import opened Wrappers
  import opened JavaText
  import opened Http
  import UrlService
  import AnalyticsService

  // ---------------------------------------------------------------------------
  // extractClientIP

  const UnknownHeader: string := "unknown"

  /** A header value extractClientIP accepts: present, non-empty, and not
      "unknown" in any letter case. */
  predicate IsKnownHeader(h: Option<string>)
    ensures IsKnownHeader(h) ==> h.Some? && h.value != "" && h.value != UnknownHeader
  {
    h.Some? && h.value != "" && !EqualsIgnoreCase(UnknownHeader, h.value)
  }

  /** Text containing a comma is never "unknown", whatever the case. */
  lemma CommaIsNotUnknown(s: string)
    requires ',' in s
    ensures !EqualsIgnoreCase(UnknownHeader, s)
  {
    var i :| 0 <= i < |s| && s[i] == ',';
    if |s| == |UnknownHeader| {
      assert FoldCase(s[i]) == ',';
      assert 'a' <= UnknownHeader[i] <= 'z';
    }
  }

  lemma PrefixSubstring(sub: string, s: string, k: nat)
    requires k <= |s| && IsSubstring(sub, s[..k])
    ensures IsSubstring(sub, s)
  {
    var i, j :| 0 <= i <= j <= k && sub == s[..k][i..j];
    assert sub == s[i..j];
  }

  /** extractClientIP: a known X-Forwarded-For wins, cut before its first
      comma and trimmed when that comma is not in first position; then a known
      X-Real-IP, verbatim; then the remote address. */
  function ExtractClientIp(request: Request): (ip: string)
    ensures IsKnownHeader(request.xForwardedFor) ==> IsSubstring(ip, request.xForwardedFor.value)
    ensures IsKnownHeader(request.xForwardedFor) && IndexOf(request.xForwardedFor.value, ',') > 0 ==>
      ip == Trim(request.xForwardedFor.value[..IndexOf(request.xForwardedFor.value, ',')])
    ensures IsKnownHeader(request.xForwardedFor) && IndexOf(request.xForwardedFor.value, ',') <= 0 ==>
      ip == request.xForwardedFor.value
    ensures !IsKnownHeader(request.xForwardedFor) && IsKnownHeader(request.xRealIp) ==> ip == request.xRealIp.value
    ensures !IsKnownHeader(request.xForwardedFor) && !IsKnownHeader(request.xRealIp) ==> ip == request.remoteAddr
  {
    if IsKnownHeader(request.xForwardedFor) then
      var forwarded := request.xForwardedFor.value;
      var commaIndex := IndexOf(forwarded, ',');
      if commaIndex > 0 then
        var first := Trim(forwarded[..commaIndex]);
        PrefixSubstring(first, forwarded, commaIndex);
        first
      else
        assert forwarded == forwarded[0..|forwarded|];
        forwarded
    else if IsKnownHeader(request.xRealIp) then
      request.xRealIp.value
    else
      request.remoteAddr
  }

  /** "203.0.113.45, 198.51.100.1" gives "203.0.113.45", and so does
      "  203.0.113.45 ,198.51.100.1": the client address before the first
      comma is returned without the blanks around it. */
  lemma FirstForwardedHopWins(pre: string, client: string, post: string, rest: string, request: Request)
    requires forall k :: 0 <= k < |pre| ==> IsBlank(pre[k])
    requires forall k :: 0 <= k < |post| ==> IsBlank(post[k])
    requires client != "" && ',' !in client
    requires !IsBlank(client[0]) && !IsBlank(client[|client| - 1])
    requires request.xForwardedFor == Some(pre + client + post + "," + rest)
    ensures ExtractClientIp(request) == client
  {
    var first := pre + client + post;
    var forwarded := first + "," + rest;
    assert request.xForwardedFor.value == forwarded;
    assert forwarded[|first|] == ',' && forwarded[..|first|] == first;
    assert ',' !in first by {
      forall k | 0 <= k < |first| ensures first[k] != ',' {
        if k < |pre| {
          assert first[k] == pre[k];
        } else if k < |pre| + |client| {
          assert first[k] == client[k - |pre|];
        } else {
          assert first[k] == post[k - |pre| - |client|];
        }
      }
    }
    CommaIsNotUnknown(forwarded);
    IndexOfAt(forwarded, ',', |first|);
    TrimPadded(pre, client, post);
  }

  /** The cut needs the comma at index > 0: a header that starts with a comma
      is returned whole and untrimmed. */
  lemma LeadingCommaKeptWhole(forwarded: string, request: Request)
    requires forwarded != "" && forwarded[0] == ','
    requires request.xForwardedFor == Some(forwarded)
    ensures ExtractClientIp(request) == forwarded
  {
    CommaIsNotUnknown(forwarded);
    IndexOfAt(forwarded, ',', 0);
  }

  /** Priority: whatever the other headers hold, an X-Forwarded-For of
      "unknown" in any case, or an empty one, is passed over. */
  lemma UnknownForwardedIgnored(forwarded: string, request: Request)
    requires forwarded == "" || EqualsIgnoreCase(UnknownHeader, forwarded)
    requires request.xForwardedFor == Some(forwarded)
    ensures ExtractClientIp(request) == if IsKnownHeader(request.xRealIp) then request.xRealIp.value else request.remoteAddr
  {
  }

  // ---------------------------------------------------------------------------
  // shortenURL

  /** shortenURL: the service's answer, unchanged. */
  method ShortenURL(repo: UrlService.UrlRepository, url: string, isValid: string -> bool,
                    codes: seq<UrlService.ShortCode>, verdicts: seq<UrlService.SaveVerdict>)
    returns (r: Result<UrlService.ShortenResponse, UrlService.ShortenError>)
    requires UrlService.EnoughDraws(codes, verdicts)
    modifies repo
    ensures var a := UrlService.Shorten(old(repo.rows), url, isValid, codes, verdicts);
      r == a.result && repo.rows == a.rows && repo.saveCalls == old(repo.saveCalls) + a.saved
  {
    r := UrlService.ShortenUrl(repo, url, isValid, codes, verdicts);
  }

  // ---------------------------------------------------------------------------
  // getRedirectionUrl

  /** A response with a status and, for a redirect, its Location. */
  datatype RedirectResponse = RedirectResponse(status: nat, location: Option<string>)

  /** The response getRedirectionUrl gives for a code, given the rows. */
  function RedirectDecision(rows: map<string, string>, shortCode: string): (resp: RedirectResponse)
    ensures resp.status == StatusNotFound <==> shortCode !in rows
    ensures resp.status == StatusMovedPermanently <==> shortCode in rows
    ensures resp.location.Some? <==> shortCode in rows
    ensures shortCode in rows ==> resp.location.value == rows[shortCode]
  {
    if shortCode in rows then RedirectResponse(StatusMovedPermanently, Some(rows[shortCode]))
    else RedirectResponse(StatusNotFound, None)
  }

  /** The redirect points where the service's lookup resolves the code. */
  lemma RedirectFollowsLookup(rows: map<string, string>, shortCode: string)
    ensures var lookup := UrlService.GetRedirectionUri(rows, shortCode);
      && (lookup.Success? ==> RedirectDecision(rows, shortCode) == RedirectResponse(StatusMovedPermanently, Some(lookup.value)))
      && (lookup.Failure? ==> RedirectDecision(rows, shortCode) == RedirectResponse(StatusNotFound, None))
  {
  }

  /** getRedirectionUrl: 404 and no click for an unknown code; for a known code
      the click is handed to recordClick, and the answer is a 301 to the
      stored URL. The User-Agent parser's answer (`parsed`), the clock reading
      and the analytics database's acceptance of the row reach the click
      only: the response is RedirectDecision whatever they are. */
  method GetRedirectionUrl(urls: UrlService.UrlRepository, analytics: AnalyticsService.AnalyticsRepository,
                           shortCode: string, request: Request,
                           parsed: Option<AnalyticsService.AgentInfo>, clickedAt: string, accepted: bool)
    returns (resp: RedirectResponse)
    modifies analytics
    ensures resp == RedirectDecision(urls.rows, shortCode)
    ensures shortCode !in urls.rows ==> analytics.clicks == old(analytics.clicks)
    ensures shortCode in urls.rows ==>
      analytics.clicks == (
        if parsed.Some? && accepted then
          old(analytics.clicks) + [AnalyticsService.ClickRecord(UrlService.UrlEntity(urls.rows[shortCode], shortCode), clickedAt,
                                     Some(ExtractClientIp(request)), request.userAgent, request.referer, parsed.value)]
        else old(analytics.clicks))
  {
    var urlEntity := UrlService.GetUrlEntityByShortCode(urls.rows, shortCode);
    if urlEntity.None? {
      return RedirectResponse(StatusNotFound, None);
    }
    var ipAddress := ExtractClientIp(request);
    AnalyticsService.RecordClick(analytics, urlEntity.value, Some(ipAddress), request.userAgent, request.referer, parsed, clickedAt, accepted);
    // the lookup succeeds: the entity was just found in the same rows
    var redirectUri := UrlService.GetRedirectionUri(urls.rows, shortCode).value;
    resp := RedirectResponse(StatusMovedPermanently, Some(redirectUri));
  }

  // ---------------------------------------------------------------------------
  // getAnalytics

  datatype AnalyticsResponse = AnalyticsResponse(status: nat, body: Option<map<string, AnalyticsService.AnalyticsValue>>)

  /** getAnalytics: 404 with no body for an unknown code; otherwise 200 with
      the service's analytics map for the queries' answers. */
  method GetAnalytics(rows: map<string, string>, shortCode: string, queries: Result<AnalyticsService.AnalyticsQueries, string>)
    returns (resp: AnalyticsResponse)
    ensures resp.status == StatusNotFound <==> shortCode !in rows
    ensures resp.status == StatusOk <==> shortCode in rows
    ensures resp.body.Some? <==> shortCode in rows
    ensures resp.body.Some? ==> AnalyticsService.AnalyticsOf(resp.body.value, queries)
  {
    var urlEntity := UrlService.GetUrlEntityByShortCode(rows, shortCode);
    if urlEntity.None? {
      return AnalyticsResponse(StatusNotFound, None);
    }
    var analytics := AnalyticsService.GetAnalytics(queries);
    resp := AnalyticsResponse(StatusOk, Some(analytics));
  }
}
