# MiniURL core, modelled in Dafny

MiniURL is a Spring URL shortener. This project models the sequential logic at its core:

- **Short-code allocator.** `UrlService.shortenUrl` validates the URL, then runs a retry loop of at most five attempts. Each attempt draws an 8-character alphanumeric code and saves the `(url, code)` row. A collision retries; five collisions raise `UrlGenerationException`; any other failure of the save propagates unretried.
- **Lookups and controller decisions.** `getRedirectionUri` and `getUrlEntityByShortCode` look a code up. The controller's redirect answers 404 for an unknown code and 301 to the stored URL otherwise. Recording the click never changes that answer. The analytics endpoint answers 404 or 200 with the analytics map.
- **Header and string helpers.**
  - The two client-address extractions: the controller's and the rate-limit interceptor's.
  - Referer cleaning.
  - Local-address geolocation.
  - The two dashboard formatters.
- **Rate limiting.**
  - The per-key bucket registry. One `computeIfAbsent` map is shared by the shortening resolver (20 requests per minute) and the redirect resolver (100 per minute).
  - The interceptor's admission decision: let the request through with the remaining tokens, or answer 429 (section 4 of RFC 6585) with the retry time in whole seconds.

The Java library calls the core relies on are written out on `seq<char>` in `JavaText`: `startsWith`, `indexOf`, `trim`, `equalsIgnoreCase`, `split(",")` and `String.valueOf(long)`.

Collaborators the model cannot see enter as inputs:

- the random generator, as the sequence of codes it would draw;
- the database's verdict on each save (stored, integrity violation, other failure);
- `UrlUtils.isValid`, as a function parameter;
- the User-Agent parser's answer, with `None` when it throws;
- the clock reading, as text;
- whether the analytics row is accepted;
- the answers of the eight analytics queries;
- Bucket4j's consumption probe, as a function of the bucket and the token count.

Modules: `Wrappers`, `JavaText`, `Http`, `UrlService`, `AnalyticsService`, `UrlController`, `RateLimiting` (RateLimitConfig.java), `RateLimitInterceptor`.

## Model

| member | source | states |
|---|---|---|
| UrlService.UrlRepository.Save | backend/miniURL/src/main/java/com/example/miniURL/service/UrlService.java:48 | a save is logged; only a stored verdict adds the `code -> url` row, a collision or failure leaves the rows as they were |
| UrlService.AllocateFrom | backend/miniURL/src/main/java/com/example/miniURL/service/UrlService.java:40-69 | attempts `attempt..5` make between 1 and `5 - attempt + 1` saves, the k-th with the k-th drawn code; success adds exactly the issued code's row, failure adds none |
| UrlService.Shorten | backend/miniURL/src/main/java/com/example/miniURL/service/UrlService.java:30-74 | at most 5 saves, each of the submitted URL with the code drawn for that attempt; an invalid URL is rejected with `InvalidUrl` exactly when `isValid` is false, with no save and rows unchanged |
| UrlService.ShortenUrl | backend/miniURL/src/main/java/com/example/miniURL/service/UrlService.java:30-74 | the imperative retry loop returns what `Shorten` specifies, leaves the rows it specifies and hands save exactly the entities it lists; the throw after the loop is unreachable |
| UrlService.CollisionStep | backend/miniURL/src/main/java/com/example/miniURL/service/UrlService.java:61-69 | a collision on attempt k < 5 continues with attempt k+1 and its fresh code |
| UrlService.ShortUrlFor | backend/miniURL/src/main/java/com/example/miniURL/service/UrlService.java:53-54 | the short URL is exactly `http://localhost:8080`, then a slash, then the code |
| UrlService.EmptyUrlRejected | backend/miniURL/src/main/java/com/example/miniURL/service/UrlService.java:33-37 | the empty URL, which the validator rejects, gives `InvalidUrl("")` with no save and the rows unchanged |
| UrlService.StoredAfterCollisions | backend/miniURL/src/main/java/com/example/miniURL/service/UrlService.java:40-59 | from any attempt up to k+1, collisions on attempts 1..k and a stored save on k+1 give that code's response and row |
| UrlService.FirstStoredAttemptWins | backend/miniURL/src/main/java/com/example/miniURL/service/UrlService.java:43-59 | the first stored save ends the call: its code and short URL are returned, exactly its row is added, and k+1 saves were made |
| UrlService.FailureAfterCollisions | backend/miniURL/src/main/java/com/example/miniURL/service/UrlService.java:40-61 | from any attempt up to k+1, a non-integrity failure on attempt k+1 after collisions is returned unchanged |
| UrlService.OtherFailureNotRetried | backend/miniURL/src/main/java/com/example/miniURL/service/UrlService.java:40-61 | any failure of save other than an integrity violation propagates at once, with no retry and no row added |
| UrlService.ExhaustedFrom | backend/miniURL/src/main/java/com/example/miniURL/service/UrlService.java:64-67 | from any attempt, collisions to the end give `UrlGenerationException` with no row added |
| UrlService.CollisionsExhaust | backend/miniURL/src/main/java/com/example/miniURL/service/UrlService.java:64-73 | five collisions in a row raise `UrlGenerationException` after exactly five saves, with the rows unchanged |
| UrlService.IssuedCodeShape | backend/miniURL/src/main/java/com/example/miniURL/service/UrlService.java:28-42 | every issued code has length 8 and only alphanumeric characters, and its short URL is built from it |
| UrlService.IssuedCodeShapeFrom | backend/miniURL/src/main/java/com/example/miniURL/service/UrlService.java:40-59 | a successful run from any attempt returns one of the codes drawn from that attempt on |
| UrlService.IssuedCodeIsDrawn | backend/miniURL/src/main/java/com/example/miniURL/service/UrlService.java:42-59 | the issued code is a drawn code whose save was stored |
| UrlService.ShortenThenResolve | backend/miniURL/src/main/java/com/example/miniURL/service/UrlService.java:30-99 | after a successful shorten that issued a code not already stored, resolving it gives the submitted URL; with a store that refuses duplicate codes, the code was new, exactly one link is added and every earlier link resolves as before |
| UrlService.GetRedirectionUri | backend/miniURL/src/main/java/com/example/miniURL/service/UrlService.java:92-99 | resolves exactly the stored codes, to their stored URL; any other code gives `UrlNotFound` |
| UrlService.GetUrlEntityByShortCode | backend/miniURL/src/main/java/com/example/miniURL/service/UrlService.java:108-110 | finds an entity exactly for stored codes, holding the stored URL and the code; otherwise null |
| UrlService.LookupsAgree | backend/miniURL/src/main/java/com/example/miniURL/service/UrlService.java:92-110 | the two lookups succeed for the same codes and agree on the URL |
| UrlController.ShortenURL | backend/miniURL/src/main/java/com/example/miniURL/controller/UrlController.java:23-26 | the endpoint's answer and effect are exactly the service's |
| UrlController.RedirectDecision | backend/miniURL/src/main/java/com/example/miniURL/controller/UrlController.java:84-106 | 404 with no location exactly for an unknown code; 301 with the stored URL as location exactly for a known one |
| UrlController.RedirectFollowsLookup | backend/miniURL/src/main/java/com/example/miniURL/controller/UrlController.java:103-106 | the 301 location is what `getRedirectionUri` resolves, and the 404 comes exactly when it does not resolve |
| UrlController.GetRedirectionUrl | backend/miniURL/src/main/java/com/example/miniURL/controller/UrlController.java:68-107 | the response is `RedirectDecision` whatever the parser, clock and analytics store do; no click for an unknown code; otherwise at most the one click `recordClick` builds, with the extracted client address |
| UrlController.GetAnalytics | backend/miniURL/src/main/java/com/example/miniURL/controller/UrlController.java:56-66 | 404 with no body exactly for an unknown code; otherwise 200 with the analytics map for the queries' answers |
| UrlController.IsKnownHeader | backend/miniURL/src/main/java/com/example/miniURL/controller/UrlController.java:129-141 | a header counts only when present, non-empty and not "unknown" |
| UrlController.ExtractClientIp | backend/miniURL/src/main/java/com/example/miniURL/controller/UrlController.java:126-147 | a known X-Forwarded-For whose first comma is not past index 0 is returned whole; with a comma past index 0 the result is exactly the trimmed text before the first comma; otherwise a known X-Real-IP verbatim; otherwise the remote address |
| UrlController.CommaIsNotUnknown | backend/miniURL/src/main/java/com/example/miniURL/controller/UrlController.java:129 | a header holding a comma never equals "unknown" ignoring case |
| UrlController.FirstForwardedHopWins | backend/miniURL/src/main/java/com/example/miniURL/controller/UrlController.java:129-136 | a header of blanks, a client address without commas or blank ends, blanks, a comma, then anything gives exactly that client address |
| UrlController.LeadingCommaKeptWhole | backend/miniURL/src/main/java/com/example/miniURL/controller/UrlController.java:132-136 | a header starting with a comma is returned whole and untrimmed |
| UrlController.UnknownForwardedIgnored | backend/miniURL/src/main/java/com/example/miniURL/controller/UrlController.java:129-146 | an empty X-Forwarded-For, or "unknown" in any case, falls through to X-Real-IP and then to the remote address |
| AnalyticsService.GeolocationFromIp | backend/miniURL/src/main/java/com/example/miniURL/service/AnalyticsService.java:189-227 | the map always has exactly "country" and "city"; "Local/Development"/"Localhost" exactly for null, 127., 192.168., 10., 0:0:0:0:0:0:0:1 and ::1; "Unknown"/"Unknown" otherwise |
| AnalyticsService.GeolocationExamples | backend/miniURL/src/main/java/com/example/miniURL/service/AnalyticsService.java:193-203 | 192.168.1.20, 10.0.0.7, ::1 and null are local; 100.1.2.3 and 172.16.0.1 are not: the prefix tests are textual |
| AnalyticsService.IsLocalAddress | backend/miniURL/src/main/java/com/example/miniURL/service/AnalyticsService.java:193-198 | a local address is null, or text of at least three characters starting with '1', '0' or ':' |
| AnalyticsService.SchemeLength | backend/miniURL/src/main/java/com/example/miniURL/service/AnalyticsService.java:244 | the removed length is 8 exactly for a leading "https://", 7 exactly for a leading "http://", 0 exactly when neither leads |
| AnalyticsService.WwwLength | backend/miniURL/src/main/java/com/example/miniURL/service/AnalyticsService.java:247 | the removed length is 4 exactly for a leading "www." and 0 otherwise |
| AnalyticsService.StripPrefixes | backend/miniURL/src/main/java/com/example/miniURL/service/AnalyticsService.java:244-247 | what is left after the two replaceFirst calls is a suffix of the input, and with no leading scheme or "www." nothing is removed |
| AnalyticsService.CutAtSlash | backend/miniURL/src/main/java/com/example/miniURL/service/AnalyticsService.java:250-253 | the cut keeps a prefix; a text whose first '/' is at index 0, or that has none, comes back whole; a result not starting with '/' contains no '/' |
| AnalyticsService.CleanReferrer | backend/miniURL/src/main/java/com/example/miniURL/service/AnalyticsService.java:237-259 | null or empty gives "direct"; otherwise the result is a contiguous substring of the input, and holds no '/' unless it starts with one |
| AnalyticsService.SchemeLengthOf | backend/miniURL/src/main/java/com/example/miniURL/service/AnalyticsService.java:244 | one leading "http://" or "https://" is removed, all of it; with no scheme in front, nothing is removed |
| AnalyticsService.WwwLengthOf | backend/miniURL/src/main/java/com/example/miniURL/service/AnalyticsService.java:247 | one leading "www." is removed, and nothing when it is absent |
| AnalyticsService.CutAtSlashKeepsHost | backend/miniURL/src/main/java/com/example/miniURL/service/AnalyticsService.java:250-255 | a host without '/' followed by an empty or '/'-led path is cut back to the host |
| AnalyticsService.StripPrefixesOf | backend/miniURL/src/main/java/com/example/miniURL/service/AnalyticsService.java:244-247 | an optional scheme then an optional "www." in front of text with neither are removed, leaving exactly that text |
| AnalyticsService.CleanReferrerOfStripped | backend/miniURL/src/main/java/com/example/miniURL/service/AnalyticsService.java:250-255 | when the stripped text is a host without '/' and an empty or '/'-led path, the cleaned referrer is the host |
| AnalyticsService.CleanReferrerKeepsHost | backend/miniURL/src/main/java/com/example/miniURL/service/AnalyticsService.java:237-259 | an optional scheme, an optional "www.", a host without '/' and an empty or '/'-led path clean to the host (e.g. "https://twitter.com/some/path?query=123" and "www.google.com/search" to "twitter.com" and "google.com", "example.com/a" to "example.com") |
| AnalyticsService.CleanReferrerKeepsLeadingSlash | backend/miniURL/src/main/java/com/example/miniURL/service/AnalyticsService.java:250-255 | a slash at index 0 is no cut point: the text comes back whole |
| AnalyticsService.CleanReferrerUncut | backend/miniURL/src/main/java/com/example/miniURL/service/AnalyticsService.java:244-255 | when the text left by the two replaceFirst calls is empty or has its first '/' at index 0, the cleaned referrer is that text, uncut |
| AnalyticsService.CleanReferrerBareScheme | backend/miniURL/src/main/java/com/example/miniURL/service/AnalyticsService.java:244-258 | "http://" cleans to the empty text |
| AnalyticsService.CleanReferrerSlashAfterScheme | backend/miniURL/src/main/java/com/example/miniURL/service/AnalyticsService.java:244-258 | "https:///a" cleans to "/a" |
| AnalyticsService.CleanReferrerSlashAfterWww | backend/miniURL/src/main/java/com/example/miniURL/service/AnalyticsService.java:247-258 | "www./a" cleans to "/a" |
| AnalyticsService.ClickRecord | backend/miniURL/src/main/java/com/example/miniURL/service/AnalyticsService.java:59-93 | the country and city are the geolocation of the address (local exactly for a local address); the referrer is the cleaned referrer, "direct" when missing; browser, operating system and device type are the parser's, or "Unknown" when missing; the URL, click time, address and User-Agent are kept |
| AnalyticsService.AnalyticsRepository.Save | backend/miniURL/src/main/java/com/example/miniURL/service/AnalyticsService.java:96 | an accepted row is appended; a refused save adds nothing |
| AnalyticsService.RecordClick | backend/miniURL/src/main/java/com/example/miniURL/service/AnalyticsService.java:55-106 | no failure result: a parser failure or a refused save adds no row, otherwise exactly the `ClickRecord` row is appended |
| AnalyticsService.FormatRecentClicks | backend/miniURL/src/main/java/com/example/miniURL/service/AnalyticsService.java:264-280 | one view per click, same length, same order, each view the click's seven fields |
| AnalyticsService.FormatKeyValuePairs | backend/miniURL/src/main/java/com/example/miniURL/service/AnalyticsService.java:286-297 | one item per row, same length, same order; label is the key or "Unknown" for null, value is the count |
| AnalyticsService.GetAnalytics | backend/miniURL/src/main/java/com/example/miniURL/service/AnalyticsService.java:127-172 | a failing query gives exactly `{"error": "Failed to retrieve analytics"}`; otherwise exactly the eight keys, each formatted from its query |
| AnalyticsService.ErrorKeyMarksFailure | backend/miniURL/src/main/java/com/example/miniURL/service/AnalyticsService.java:127-172 | the "error" key is present exactly when a query failed, and the map is determined by the queries' answers |
| RateLimiting.CreateShorteningBucket | backend/miniURL/src/main/java/com/example/miniURL/config/RateLimitConfig.java:54-62 | capacity 20, refilled completely (20 tokens) every minute |
| RateLimiting.CreateRedirectBucket | backend/miniURL/src/main/java/com/example/miniURL/config/RateLimitConfig.java:64-72 | capacity 100, refilled completely (100 tokens) every minute |
| RateLimiting.Resolve | backend/miniURL/src/main/java/com/example/miniURL/config/RateLimitConfig.java:38-52 | the key is present afterwards and the returned bucket is its entry; no other key is added or changed; an absent key gets a fresh bucket of the resolver's kind |
| RateLimiting.ResolvePresent | backend/miniURL/src/main/java/com/example/miniURL/config/RateLimitConfig.java:39-51 | resolving a present key returns the stored bucket and leaves the map unchanged, whichever resolver asks |
| RateLimiting.RateLimitConfig.ResolveShorteningBucket | backend/miniURL/src/main/java/com/example/miniURL/config/RateLimitConfig.java:38-40 | the in-place `computeIfAbsent` with the shortening factory does what `Resolve` specifies |
| RateLimiting.RateLimitConfig.ResolveRedirectBucket | backend/miniURL/src/main/java/com/example/miniURL/config/RateLimitConfig.java:50-52 | the in-place `computeIfAbsent` with the redirect factory does what `Resolve` specifies |
| RateLimiting.FirstKind | backend/miniURL/src/main/java/com/example/miniURL/config/RateLimitConfig.java:28-52 | a resolver kind is reported exactly when some resolve asked for the key, and it is the kind of the first resolve that asked |
| RateLimiting.FirstResolverWins | backend/miniURL/src/main/java/com/example/miniURL/config/RateLimitConfig.java:28-52 | after any run of resolves, a present key keeps its bucket, an absent one holds the bucket of the resolver that saw it first, and no key appears that no resolve asked for |
| RateLimiting.RedirectFirstGovernsShortening | backend/miniURL/src/main/java/com/example/miniURL/config/RateLimitConfig.java:28-52 | a client first seen by the redirect resolver gets the 100-per-minute bucket on the shortening endpoint too |
| RateLimitInterceptor.GetClientIp | backend/miniURL/src/main/java/com/example/miniURL/interceptor/RateLimitInterceptor.java:67-73 | the remote address without X-Forwarded-For; otherwise the header's prefix up to its first comma, untrimmed; fails exactly for a non-empty header of commas only |
| RateLimitInterceptor.ClientIpKeepsBlanks | backend/miniURL/src/main/java/com/example/miniURL/interceptor/RateLimitInterceptor.java:72 | the text before the first comma comes back with its blanks |
| RateLimitInterceptor.EmptyForwardedDisagrees | backend/miniURL/src/main/java/com/example/miniURL/interceptor/RateLimitInterceptor.java:67-73 | an empty X-Forwarded-For is the interceptor's client key "", while the controller falls to a known X-Real-IP or else the remote address |
| RateLimitInterceptor.WholeSeconds | backend/miniURL/src/main/java/com/example/miniURL/interceptor/RateLimitInterceptor.java:50 | nanoseconds to whole seconds, truncating toward zero as Java's long division does |
| RateLimitInterceptor.Decide | backend/miniURL/src/main/java/com/example/miniURL/interceptor/RateLimitInterceptor.java:44-61 | the request proceeds exactly when the token was consumed, with the remaining tokens in X-Rate-Limit-Remaining; otherwise status 429, and the retry header's number is the one in the JSON body |
| RateLimitInterceptor.TooManyRequestsBody | backend/miniURL/src/main/java/com/example/miniURL/interceptor/RateLimitInterceptor.java:54-57 | the 429 body is the fixed JSON prefix, the decimal seconds, then the fixed suffix, and the number sits exactly between them |
| RateLimitInterceptor.RetryAfterRoundsDown | backend/miniURL/src/main/java/com/example/miniURL/interceptor/RateLimitInterceptor.java:50-56 | the retry header is plain digits whose value n has n seconds <= the wait < n + 1 seconds |
| RateLimitInterceptor.RemainingReadsBack | backend/miniURL/src/main/java/com/example/miniURL/interceptor/RateLimitInterceptor.java:46 | the remaining header reads back as the probe's remaining tokens |
| RateLimitInterceptor.BucketKindFor | backend/miniURL/src/main/java/com/example/miniURL/interceptor/RateLimitInterceptor.java:36-40 | exactly the path "/shorten" uses the shortening bucket; every other path the redirect bucket |
| RateLimitInterceptor.PreHandle | backend/miniURL/src/main/java/com/example/miniURL/interceptor/RateLimitInterceptor.java:27-62 | a comma-only X-Forwarded-For fails before any bucket is resolved; otherwise the path's bucket for the client key is resolved in place, one token is asked for, and the response is `Decide` of the probe |
| JavaText.IndexOf | backend/miniURL/src/main/java/com/example/miniURL/controller/UrlController.java:132 | `indexOf`: -1 exactly when the character is absent, else the index of its first occurrence |
| JavaText.StartsWith | backend/miniURL/src/main/java/com/example/miniURL/service/AnalyticsService.java:194-196 | `startsWith` holds only when the prefix fits and the text is the prefix followed by the rest |
| JavaText.EqualsIgnoreCase | backend/miniURL/src/main/java/com/example/miniURL/controller/UrlController.java:129-141 | `equalsIgnoreCase` only matches strings of equal length, and every string matches itself |
| JavaText.Trim | backend/miniURL/src/main/java/com/example/miniURL/controller/UrlController.java:134 | `trim` gives the run of `s` from its first non-blank character to its last one (blank: at or below U+0020), with only blanks outside it; a string with non-blank ends is unchanged |
| JavaText.TrimIdempotent | backend/miniURL/src/main/java/com/example/miniURL/controller/UrlController.java:134 | trimming twice is trimming once |
| JavaText.TrimUnique | backend/miniURL/src/main/java/com/example/miniURL/controller/UrlController.java:134 | a run with non-blank ends and only blanks around it is exactly what `trim` returns |
| JavaText.TrimPadded | backend/miniURL/src/main/java/com/example/miniURL/controller/UrlController.java:134 | blanks, a text with non-blank ends, blanks trim to that text |
| JavaText.SplitFirst | backend/miniURL/src/main/java/com/example/miniURL/interceptor/RateLimitInterceptor.java:72 | `split(",")` is empty exactly for a non-empty string of commas; otherwise its first element is the text before the first comma, or all of it |
| JavaText.Split | backend/miniURL/src/main/java/com/example/miniURL/interceptor/RateLimitInterceptor.java:72 | `split(",")` of text without a comma is that text alone; with a comma, trailing empty pieces are dropped; no piece holds a comma |
| JavaText.DecimalRoundTrip | backend/miniURL/src/main/java/com/example/miniURL/interceptor/RateLimitInterceptor.java:46-53 | `String.valueOf` of a non-negative number reads back as that number and has no leading zero |
| JavaText.IntToDecimal | backend/miniURL/src/main/java/com/example/miniURL/interceptor/RateLimitInterceptor.java:46-53 | `String.valueOf(long)` is never empty and starts with '-' exactly for a negative number |
| JavaText.IntToDecimalInjective | backend/miniURL/src/main/java/com/example/miniURL/interceptor/RateLimitInterceptor.java:53-56 | distinct numbers have distinct decimal texts |

## Left out

- The Caffeine cache behind `@Cacheable` on `getRedirectionUri`: lookups read the rows directly, so eviction and a stale entry are not modelled.
- Bucket4j's token arithmetic: a bucket is its configuration, and the consumption probe is supplied by a function of the bucket and the token count.
- `RandomStringUtils`: the codes are an input sequence of at least five draws. This covers any generator, because a call uses at most five draws.
- JPA and SQL: the URL table is a map from code to URL, and the analytics queries' answers are inputs. With duplicate codes the real `findByShortCode` may throw, while the map keeps one URL per code.
- The User-Agent parsing library: its answer is an input, and only the null-to-"Unknown" defaults are modelled.
- The clock, logging and `URI.create`: the click time is an input text, log calls are dropped, and a stored URL that `URI.create` rejects would throw in the source but is returned as text here.
- The commented-out MaxMind geolocation, `DotenvConfig`, `WebConfig` and `CacheConfig`.
- Concurrency: `ConcurrentHashMap`'s atomicity and concurrent requests; the model is sequential.
- `UrlUtils.isValid`: its body is not part of this model; it is a parameter, and only its rejection of the empty string is used.
- A null request body URL: the URL is a string.
- Header lookup is by exact name; servlet header names are case-insensitive.
- The Location header's encoding: Spring writes the redirect URI with `URI.toASCIIString()`, so a stored URL with non-ASCII characters leaves percent-encoded. `RedirectDecision` and `GetRedirectionUrl` give the stored text unchanged; the model assumes ASCII URLs.
- The locale of `String.format("%d")` in the 429 body: under a default locale whose digits are not ASCII, the body's number is written in other digits than the `String.valueOf` text of the retry header. `Decide` writes both as `IntToDecimal`; the model assumes a locale with ASCII digits.
- The catch in `cleanReferrer`: nothing in the modelled body can throw there, so it has no counterpart. The controller's catch around `recordClick` appears only through its effect, a redirect that does not depend on the click.
- JavaText.FoldCase: models `equalsIgnoreCase` only as it matters against the ASCII word "unknown" (ASCII letters and KELVIN SIGN).
- Generated ids of the entities and the `Object` typing of map values and aggregate rows: rows carry an optional key text and an integer count.
- ShortenThenResolve: the round trip is stated only for a newly issued code. With a duplicate code the source's `findByShortCode` would throw, while the map keeps only the newest URL.
- RecordClick: `recordClick` is `@Transactional`. A refused save inside its try/catch still marks the transaction rollback-only, so the commit throws `UnexpectedRollbackException`, which the controller's catch absorbs. The outcome is modelled (no row, the redirect unchanged), but not the exception's path through the transaction proxy.
