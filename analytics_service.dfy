/** AnalyticsService: click recording, the string classifications it uses,
    and the read side that formats the database's aggregates for the dashboard.

    The User-Agent parser, the clock and the SQL aggregation queries are
    collaborators: their answers enter as inputs. */
module AnalyticsService {
  import opened Wrappers
  import opened JavaText
  import UrlService

  const Unknown: string := "Unknown"
  const Direct: string := "direct"
  const LocalCountry: string := "Local/Development"
  const LocalCity: string := "Localhost"
  const AnalyticsFailure: string := "Failed to retrieve analytics"

  // ---------------------------------------------------------------------------
  // getGeolocationFromIP

  /** Null, the 127., 192.168. and 10. prefixes, and the two IPv6 loopback
      spellings. The prefix tests are textual: "100.1.2.3" is not local. */
  predicate IsLocalAddress(ip: Option<string>)
    ensures IsLocalAddress(ip) && ip.Some? ==> |ip.value| >= 3 && ip.value[0] in {'0', '1', ':'}
  {
    || ip.None?
    || StartsWith(ip.value, "127.")
    || StartsWith(ip.value, "192.168.")
    || StartsWith(ip.value, "10.")
    || ip.value == "0:0:0:0:0:0:0:1"
    || ip.value == "::1"
  }

  /** The country/city map: always both keys, "Local/Development"/"Localhost"
      for a local address and "Unknown"/"Unknown" for every other one. */
  function GeolocationFromIp(ip: Option<string>): (geo: map<string, string>)
    ensures geo.Keys == {"country", "city"}
    ensures IsLocalAddress(ip) <==> geo["country"] == LocalCountry
    ensures IsLocalAddress(ip) <==> geo["city"] == LocalCity
    ensures !IsLocalAddress(ip) ==> geo["country"] == Unknown && geo["city"] == Unknown
  {
    if IsLocalAddress(ip) then
      map["country" := LocalCountry, "city" := LocalCity]
    else
      map["country" := Unknown, "city" := Unknown]
  }

  lemma GeolocationExamples()
    ensures GeolocationFromIp(Some("192.168.1.20"))["city"] == LocalCity
    ensures GeolocationFromIp(Some("10.0.0.7"))["country"] == LocalCountry
    ensures GeolocationFromIp(Some("::1"))["country"] == LocalCountry
    ensures GeolocationFromIp(None)["country"] == LocalCountry
    ensures GeolocationFromIp(Some("100.1.2.3"))["country"] == Unknown
    ensures GeolocationFromIp(Some("172.16.0.1"))["country"] == Unknown
  {
    assert StartsWith("192.168.1.20", "192.168.");
    assert StartsWith("10.0.0.7", "10.");
    assert !StartsWith("100.1.2.3", "10.") by { assert "100.1.2.3"[2] == '0'; }
    assert !StartsWith("100.1.2.3", "127.") by { assert "100.1.2.3"[1] == '0'; }
    assert !StartsWith("100.1.2.3", "192.168.") by { assert "100.1.2.3"[1] == '0'; }
    assert !StartsWith("172.16.0.1", "10.") by { assert "172.16.0.1"[1] == '7'; }
    assert !StartsWith("172.16.0.1", "127.") by { assert "172.16.0.1"[2] == '2'; }
    assert !StartsWith("172.16.0.1", "192.168.") by { assert "172.16.0.1"[1] == '7'; }
  }

  // ---------------------------------------------------------------------------
  // cleanReferrer

  /** What replaceFirst("^https?://", "") removes: 7, 8 or 0 characters. */
  function SchemeLength(s: string): (n: nat)
    ensures n <= |s|
    ensures n == 7 <==> StartsWith(s, "http://")
    ensures n == 8 <==> StartsWith(s, "https://")
    ensures n == 0 <==> !StartsWith(s, "http://") && !StartsWith(s, "https://")
  {
    assert StartsWith(s, "https://") ==> !StartsWith(s, "http://") by {
      if StartsWith(s, "https://") {
        assert s[4] == 's';
      }
    }
    if StartsWith(s, "http://") then 7 else if StartsWith(s, "https://") then 8 else 0
  }

  /** What replaceFirst("^www\\.", "") removes: 4 or 0 characters. */
  function WwwLength(s: string): (n: nat)
    ensures n <= |s|
    ensures n == 4 <==> StartsWith(s, "www.")
    ensures n == 0 <==> !StartsWith(s, "www.")
  {
    if StartsWith(s, "www.") then 4 else 0
  }

  /** The two replaceFirst calls: one leading scheme, then one leading "www.". */
  function StripPrefixes(s: string): (r: string)
    ensures |r| <= |s| && r == s[|s| - |r|..]
    ensures !StartsWith(s, "http://") && !StartsWith(s, "https://") && !StartsWith(s, "www.") ==> r == s
  {
    var afterScheme := s[SchemeLength(s)..];
    afterScheme[WwwLength(afterScheme)..]
  }

  /** The cut before the first '/', made only when that slash is at index > 0. */
  function CutAtSlash(h: string): (r: string)
    ensures |r| <= |h| && r == h[..|r|]
    ensures (r == "" || r[0] != '/') ==> '/' !in r
    ensures IndexOf(h, '/') <= 0 ==> r == h
  {
    var slash := IndexOf(h, '/');
    if slash > 0 then h[..slash] else h
  }

  lemma CutOfSuffix(s: string, host: string, r: string)
    requires |host| <= |s| && host == s[|s| - |host|..]
    requires |r| <= |host| && r == host[..|r|]
    ensures IsSubstring(r, s)
  {
    SubstringAt(r, s, |s| - |host|, |s| - |host| + |r|);
  }

  /** cleanReferrer: "direct" for a missing or empty header; otherwise the
      header without one leading scheme and one leading "www.", cut before
      the first '/' when that slash is not the first character. */
  function CleanReferrer(referrer: Option<string>): (r: string)
    ensures referrer.None? || referrer == Some("") ==> r == Direct
    ensures referrer.Some? && referrer.value != "" ==> IsSubstring(r, referrer.value)
    ensures referrer.Some? && referrer.value != "" && (r == "" || r[0] != '/') ==> '/' !in r
  {
    if referrer.None? || referrer.value == "" then Direct
    else
      var s := referrer.value;
      var host := StripPrefixes(s);
      var r := CutAtSlash(host);
      CutOfSuffix(s, host, r);
      r
  }

  /** One leading "http://" or "https://" is removed whole; text with neither
      loses nothing. */
  lemma SchemeLengthOf(scheme: string, rest: string)
    requires scheme == "http://" || scheme == "https://" || scheme == ""
    requires scheme == "" ==> !StartsWith(rest, "http://") && !StartsWith(rest, "https://")
    ensures SchemeLength(scheme + rest) == |scheme|
  {
    var s := scheme + rest;
    if scheme == "" {
      assert s == rest;
    } else {
      assert s[..|scheme|] == scheme;
    }
  }

  lemma WwwLengthOf(www: string, rest: string)
    requires www == "" || www == "www."
    requires www == "" ==> !StartsWith(rest, "www.")
    ensures WwwLength(www + rest) == |www|
  {
    if www == "" {
      assert www + rest == rest;
    } else {
      assert (www + rest)[..4] == www;
    }
  }

  /** A host free of '/' followed by a path that is empty or starts with '/'
      is cut back to the host. */
  lemma CutAtSlashKeepsHost(host: string, path: string)
    requires host != "" && '/' !in host
    requires path == "" || path[0] == '/'
    ensures CutAtSlash(host + path) == host
  {
    var hp := host + path;
    if path == "" {
      assert hp == host;
    } else {
      assert hp[..|host|] == host;
      IndexOfAt(hp, '/', |host|);
    }
  }

  /** The two replaceFirst calls remove exactly an optional scheme and then an
      optional "www.". */
  lemma StripPrefixesOf(scheme: string, www: string, rest: string)
    requires scheme == "http://" || scheme == "https://" || scheme == ""
    requires scheme == "" ==> !StartsWith(www + rest, "http://") && !StartsWith(www + rest, "https://")
    requires www == "" || www == "www."
    requires www == "" ==> !StartsWith(rest, "www.")
    ensures StripPrefixes(scheme + www + rest) == rest
  {
    var afterScheme := www + rest;
    var s := scheme + afterScheme;
    assert s == scheme + www + rest;
    SchemeLengthOf(scheme, afterScheme);
    assert s[|scheme|..] == afterScheme;
    WwwLengthOf(www, rest);
    assert afterScheme[|www|..] == rest;
  }

  /** A referrer made of an optional scheme, an optional "www.", a host
      without '/' and a path that is empty or starts with '/' cleans to the
      host: "https://twitter.com/some/path?query=123" to "twitter.com",
      "www.google.com/search" to "google.com", "example.com/a" to
      "example.com". */
  lemma CleanReferrerKeepsHost(scheme: string, www: string, host: string, path: string)
    requires scheme == "http://" || scheme == "https://" || scheme == ""
    requires scheme == "" ==> !StartsWith(www + host + path, "http://") && !StartsWith(www + host + path, "https://")
    requires www == "" || www == "www."
    requires www == "" ==> !StartsWith(host + path, "www.")
    requires host != "" && '/' !in host
    requires path == "" || path[0] == '/'
    ensures CleanReferrer(Some(scheme + www + host + path)) == host
  {
    assert www + host + path == www + (host + path);
    StripPrefixesOf(scheme, www, host + path);
    assert scheme + www + (host + path) == scheme + www + host + path;
    CleanReferrerOfStripped(scheme + www + host + path, host, path);
  }

  lemma CleanReferrerOfStripped(s: string, host: string, path: string)
    requires StripPrefixes(s) == host + path
    requires host != "" && '/' !in host
    requires path == "" || path[0] == '/'
    ensures CleanReferrer(Some(s)) == host
  {
    CutAtSlashKeepsHost(host, path);
  }

  /** A slash in first position is not a cut point: the text comes back whole. */
  lemma CleanReferrerKeepsLeadingSlash(path: string)
    requires path != "" && path[0] == '/'
    ensures CleanReferrer(Some(path)) == path
  {
    assert !StartsWith(path, "http://") && !StartsWith(path, "https://") && !StartsWith(path, "www.") by {
      assert path[0] == '/';
    }
    IndexOfAt(path, '/', 0);
  }

  /** When the stripped text is empty or has no '/' past its first character,
      no cut is made: the referrer comes back as the prefixes left it
      ("http://" cleans to "", "https:///a" and "www./a" to "/a"). */
  lemma CleanReferrerUncut(s: string)
    requires s != "" && IndexOf(StripPrefixes(s), '/') <= 0
    ensures CleanReferrer(Some(s)) == StripPrefixes(s)
  {
  }

  /** "http://" cleans to the empty text. */
  lemma CleanReferrerBareScheme()
    ensures CleanReferrer(Some("http://")) == ""
  {
    assert "http://" == "http://" + "" + "";
    StripPrefixesOf("http://", "", "");
    CleanReferrerUncut("http://");
  }

  /** "https:///a" cleans to "/a": the slash left first is not cut. */
  lemma CleanReferrerSlashAfterScheme()
    ensures CleanReferrer(Some("https:///a")) == "/a"
  {
    var slashA := "/a";
    assert !StartsWith(slashA, "www.") by { assert slashA[0] == '/'; }
    IndexOfAt(slashA, '/', 0);
    assert "https:///a" == "https://" + "" + slashA;
    StripPrefixesOf("https://", "", slashA);
    CleanReferrerUncut("https:///a");
  }

  /** "www./a" cleans to "/a". */
  lemma CleanReferrerSlashAfterWww()
    ensures CleanReferrer(Some("www./a")) == "/a"
  {
    var slashA := "/a";
    assert !StartsWith(slashA, "www.") by { assert slashA[0] == '/'; }
    IndexOfAt(slashA, '/', 0);
    assert !StartsWith("www." + slashA, "http://") && !StartsWith("www." + slashA, "https://") by {
      assert ("www." + slashA)[0] == 'w';
    }
    assert "www./a" == "" + "www." + slashA;
    StripPrefixesOf("", "www.", slashA);
    CleanReferrerUncut("www./a");
  }

  // ---------------------------------------------------------------------------
  // recordClick

  /** What the User-Agent library reports; `None` fields are its nulls. */
  datatype OsInfo = OsInfo(name: string, deviceType: Option<string>)
  datatype AgentInfo = AgentInfo(browser: Option<string>, os: Option<OsInfo>)

  /** One UrlAnalytics row (the generated id is left out; the clock's reading
      is kept as its text). */
  datatype UrlAnalytics = UrlAnalytics(
    url: UrlService.UrlEntity,
    clickedAt: string,
    ipAddress: Option<string>,
    country: string,
    city: string,
    browser: string,
    operatingSystem: string,
    deviceType: string,
    referrer: string,
    userAgent: Option<string>)

  /** The row recordClick builds: missing browser, operating system or device
      type become "Unknown", the location comes from the address, and the
      referrer is cleaned. */
  function ClickRecord(url: UrlService.UrlEntity, clickedAt: string, ipAddress: Option<string>, userAgent: Option<string>, referrer: Option<string>, agent: AgentInfo): (rec: UrlAnalytics)
    ensures agent.browser.None? ==> rec.browser == Unknown
    ensures agent.browser.Some? ==> rec.browser == agent.browser.value
    ensures agent.os.None? ==> rec.operatingSystem == Unknown && rec.deviceType == Unknown
    ensures agent.os.Some? ==> rec.operatingSystem == agent.os.value.name
    ensures agent.os.Some? && agent.os.value.deviceType.None? ==> rec.deviceType == Unknown
    ensures agent.os.Some? && agent.os.value.deviceType.Some? ==> rec.deviceType == agent.os.value.deviceType.value
    ensures IsLocalAddress(ipAddress) <==> rec.country == LocalCountry
    ensures rec.country == GeolocationFromIp(ipAddress)["country"] && rec.city == GeolocationFromIp(ipAddress)["city"]
    ensures rec.referrer == CleanReferrer(referrer)
    ensures referrer.None? ==> rec.referrer == Direct
    ensures rec.url == url && rec.clickedAt == clickedAt && rec.ipAddress == ipAddress && rec.userAgent == userAgent
  {
    var browserName := agent.browser.GetOr(Unknown);
    var osName := if agent.os.Some? then agent.os.value.name else Unknown;
    var deviceTypeName := if agent.os.Some? then agent.os.value.deviceType.GetOr(Unknown) else Unknown;
    var geo := GeolocationFromIp(ipAddress);
    UrlAnalytics(url, clickedAt, ipAddress, geo["country"], geo["city"], browserName, osName, deviceTypeName, CleanReferrer(referrer), userAgent)
  }

  /** The analytics table. */
  class AnalyticsRepository {
    var clicks: seq<UrlAnalytics>

    constructor ()
      ensures clicks == []
    {
      clicks := [];
    }

    /** analyticsRepository.save(row); `accepted` is false when the database throws. */
    method Save(row: UrlAnalytics, accepted: bool)
      modifies this
      ensures clicks == if accepted then old(clicks) + [row] else old(clicks)
    {
      if accepted {
        clicks := clicks + [row];
      }
    }
  }

  /** recordClick: builds the row and saves it. A parser failure (`parsed` is
      None) or a refused save is caught by its own try/catch. The method is
      @Transactional, so a refused save still marks the transaction
      rollback-only and the commit then throws; the controller's catch around
      the call absorbs that. Either way no row is stored and the redirect is
      unaffected, which is the outcome stated here: at most one row is added. */
  method RecordClick(repo: AnalyticsRepository, url: UrlService.UrlEntity, ipAddress: Option<string>, userAgent: Option<string>, referrer: Option<string>,
                     parsed: Option<AgentInfo>, clickedAt: string, accepted: bool)
    modifies repo
    ensures repo.clicks == if parsed.Some? && accepted
      then old(repo.clicks) + [ClickRecord(url, clickedAt, ipAddress, userAgent, referrer, parsed.value)]
      else old(repo.clicks)
  {
    if parsed.Some? {
      repo.Save(ClickRecord(url, clickedAt, ipAddress, userAgent, referrer, parsed.value), accepted);
    }
  }

  // ---------------------------------------------------------------------------
  // Formatting for the dashboard

  /** One recent click as the dashboard receives it. */
  datatype ClickView = ClickView(clickedAt: string, country: string, city: string, browser: string, os: string, deviceType: string, referrer: string)

  function ViewOf(click: UrlAnalytics): ClickView {
    ClickView(click.clickedAt, click.country, click.city, click.browser, click.operatingSystem, click.deviceType, click.referrer)
  }

  /** formatRecentClicks: one view per click, in the same order. */
  method FormatRecentClicks(clicks: seq<UrlAnalytics>) returns (formatted: seq<ClickView>)
    ensures |formatted| == |clicks|
    ensures forall i :: 0 <= i < |clicks| ==> formatted[i] == ViewOf(clicks[i])
  {
    formatted := [];
    var n := 0;
    while n < |clicks|
      invariant 0 <= n <= |clicks|
      invariant |formatted| == n
      invariant forall i :: 0 <= i < n ==> formatted[i] == ViewOf(clicks[i])
    {
      formatted := formatted + [ViewOf(clicks[n])];
      n := n + 1;
    }
  }

  /** A two-column aggregate row: row[0] as its toString text (None for SQL
      NULL) and the count in row[1]. */
  datatype ChartRow = ChartRow(key: Option<string>, count: int)

  datatype ChartItem = ChartItem(name: string, value: int)  // the "label" and "value" entries

  predicate FormatsRows(items: seq<ChartItem>, rows: seq<ChartRow>) {
    && |items| == |rows|
    && forall i :: 0 <= i < |rows| ==> items[i] == ChartItem(rows[i].key.GetOr(Unknown), rows[i].count)
  }

  /** formatKeyValuePairs: one item per row, in the same order; its label is the
      key, or "Unknown" for a null key; value is the count. */
  method FormatKeyValuePairs(data: seq<ChartRow>) returns (formatted: seq<ChartItem>)
    ensures |formatted| == |data|
    ensures forall i :: 0 <= i < |data| ==> formatted[i].value == data[i].count
    ensures forall i :: 0 <= i < |data| ==> formatted[i].name == if data[i].key.Some? then data[i].key.value else Unknown
  {
    formatted := [];
    var n := 0;
    while n < |data|
      invariant 0 <= n <= |data|
      invariant FormatsRows(formatted, data[..n])
    {
      var row := data[n];
      var name := if row.key.Some? then row.key.value else Unknown;
      formatted := formatted + [ChartItem(name, row.count)];
      n := n + 1;
    }
    assert data[..n] == data;
  }

  // ---------------------------------------------------------------------------
  // getAnalytics

  /** The answers of the eight repository queries, in the order they are asked. */
  datatype AnalyticsQueries = AnalyticsQueries(
    totalClicks: int,
    uniqueVisitors: int,
    recentClicks: seq<UrlAnalytics>,
    clicksByCountry: seq<ChartRow>,
    clicksByDevice: seq<ChartRow>,
    clicksByBrowser: seq<ChartRow>,
    clicksByDate: seq<ChartRow>,
    topReferrers: seq<ChartRow>)

  /** The heterogeneous values of the returned Map<String, Object>. */
  datatype AnalyticsValue =
    | Count(n: int)
    | Clicks(views: seq<ClickView>)
    | Chart(items: seq<ChartItem>)
    | Message(text: string)

  const AnalyticsKeys: set<string> := {"totalClicks", "uniqueVisitors", "recentClicks", "clicksByCountry",
                                        "clicksByDevice", "clicksByBrowser", "clicksByDate", "topReferrers"}

  predicate IsChartOf(v: AnalyticsValue, rows: seq<ChartRow>) {
    v.Chart? && FormatsRows(v.items, rows)
  }

  predicate IsClicksOf(v: AnalyticsValue, clicks: seq<UrlAnalytics>) {
    v.Clicks? && |v.views| == |clicks| && forall i :: 0 <= i < |clicks| ==> v.views[i] == ViewOf(clicks[i])
  }

  /** What getAnalytics returns for the queries' answers: when any query
      throws (`queries` is a Failure) the map holds only "error" -> "Failed to
      retrieve analytics"; otherwise exactly the eight entries, each formatted
      from its query. */
  predicate AnalyticsOf(analytics: map<string, AnalyticsValue>, queries: Result<AnalyticsQueries, string>) {
    if queries.Failure? then
      analytics == map["error" := Message(AnalyticsFailure)]
    else
      var q := queries.value;
      && analytics.Keys == AnalyticsKeys
      && analytics["totalClicks"] == Count(q.totalClicks)
      && analytics["uniqueVisitors"] == Count(q.uniqueVisitors)
      && IsClicksOf(analytics["recentClicks"], q.recentClicks)
      && IsChartOf(analytics["clicksByCountry"], q.clicksByCountry)
      && IsChartOf(analytics["clicksByDevice"], q.clicksByDevice)
      && IsChartOf(analytics["clicksByBrowser"], q.clicksByBrowser)
      && IsChartOf(analytics["clicksByDate"], q.clicksByDate)
      && IsChartOf(analytics["topReferrers"], q.topReferrers)
  }

  /** getAnalytics: the catch-all turns any failing query into the error map. */
  method GetAnalytics(queries: Result<AnalyticsQueries, string>) returns (analytics: map<string, AnalyticsValue>)
    ensures AnalyticsOf(analytics, queries)
  {
    analytics := map[];
    if queries.Failure? {
      // the catch block
      analytics := analytics["error" := Message(AnalyticsFailure)];
      return;
    }
    var q := queries.value;
    var recent := FormatRecentClicks(q.recentClicks);
    var byCountry := FormatKeyValuePairs(q.clicksByCountry);
    var byDevice := FormatKeyValuePairs(q.clicksByDevice);
    var byBrowser := FormatKeyValuePairs(q.clicksByBrowser);
    var byDate := FormatKeyValuePairs(q.clicksByDate);
    var referrers := FormatKeyValuePairs(q.topReferrers);
    analytics := analytics["totalClicks" := Count(q.totalClicks)];
    analytics := analytics["uniqueVisitors" := Count(q.uniqueVisitors)];
    analytics := analytics["recentClicks" := Clicks(recent)];
    analytics := analytics["clicksByCountry" := Chart(byCountry)];
    analytics := analytics["clicksByDevice" := Chart(byDevice)];
    analytics := analytics["clicksByBrowser" := Chart(byBrowser)];
    analytics := analytics["clicksByDate" := Chart(byDate)];
    analytics := analytics["topReferrers" := Chart(referrers)];
  }

  /** The failure map and a success map are told apart by the "error" key
      alone, and the map is determined by the queries' answers. */
  lemma ErrorKeyMarksFailure(queries: Result<AnalyticsQueries, string>, a: map<string, AnalyticsValue>, b: map<string, AnalyticsValue>)
    requires AnalyticsOf(a, queries) && AnalyticsOf(b, queries)
    ensures "error" in a <==> queries.Failure?
    ensures a == b
  {
    if queries.Success? {
      var q := queries.value;
      assert a["recentClicks"] == b["recentClicks"];
      forall k | k in AnalyticsKeys ensures a[k] == b[k] {
        if k !in {"totalClicks", "uniqueVisitors", "recentClicks"} {
          assert a[k].items == b[k].items;
        }
      }
    }
  }
}
