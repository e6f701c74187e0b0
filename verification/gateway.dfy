/** Content-addressed (`ipfs://`) URI expansion into HTTP gateway candidates and
    the fallback walk over them (src/App.jsx `buildGatewayUrls`,
    `fetchWithTimeout`, `resolveWithFallback`; src/App1.jsx `resolveIpfsUrl`).
    The network is an oracle from URL to the outcome of one bounded fetch. */
module Gateway {
  import opened Common
  import opened Text

  const IpfsScheme := "ipfs://"

  /** One `{trait_type, value}` entry of a metadata document. */
  datatype Attribute = Attribute(traitType: string, value: string)

  /** A metadata document as served: every field may be missing. A non-null JSON
      value without these fields (a number, an array) reads as all fields absent. */
  datatype RawMetadata = RawMetadata(
    name: Option<string>,
    description: Option<string>,
    image: Option<string>,
    attributes: Option<seq<Attribute>>)

  /** A parsed JSON body: the literal `null`, or a document. */
  datatype Json = JsonNull | Document(meta: RawMetadata)

  /** A response body: either it parses as JSON or `res.json()` throws. */
  datatype Body = Unparseable | Parsed(json: Json)

  /** What one fetch of a URL produces: a response with a status, an abort after the
      8000 ms timer, or a network error. */
  datatype FetchOutcome = Response(status: int, body: Body) | TimedOut | NetworkError

  /** The network, as seen by the application. */
  type Fetcher = string -> FetchOutcome

  /** `res.ok`: a 2xx status. */
  predicate IsOkStatus(status: int) {
    200 <= status <= 299
  }

  /** What `fetchWithTimeout(url)` followed by `res.json()` yields: the JSON, or
      nothing when either of them throws. */
  function Accepted(o: FetchOutcome): (r: Option<Json>)
    ensures r.Some? ==> o.Response? && IsOkStatus(o.status) && o.body == Parsed(r.value)
    ensures o.Response? && IsOkStatus(o.status) && o.body.Parsed? ==> r == Some(o.body.json)
  {
    match o
    case Response(status, body) =>
      if !IsOkStatus(status) then None
      else if body.Unparseable? then None
      else Some(body.json)
    case TimedOut => None
    case NetworkError => None
  }

  /** The three candidates for a content identifier and the path after it. */
  function W3sUrl(cid: string, path: string): string {
    "https://" + cid + ".ipfs.w3s.link/" + path
  }

  function IpfsIoUrl(cid: string, path: string): string {
    "https://ipfs.io/ipfs/" + cid + "/" + path
  }

  function CloudflareUrl(cid: string, path: string): string {
    "https://cloudflare-ipfs.com/ipfs/" + cid + "/" + path
  }

  /** `buildGatewayUrls`: a non-`ipfs://` URI is its own single candidate; an
      `ipfs://` URI yields three gateway URLs in a fixed order. The content
      identifier is the first segment after the scheme, and the path is what a
      single `replace` of `ipfs://<cid>/` leaves of the URI. */
  function BuildGatewayUrls(uri: string): (urls: seq<string>)
    ensures !StartsWith(uri, IpfsScheme) ==> urls == [uri]
    ensures StartsWith(uri, IpfsScheme) ==> |urls| == 3
  {
    if !StartsWith(uri, IpfsScheme) then [uri]
    else
      var cid := BeforeFirst(ReplaceFirst(uri, IpfsScheme, ""), '/');
      var path := ReplaceFirst(uri, IpfsScheme + cid + "/", "");
      [W3sUrl(cid, path), IpfsIoUrl(cid, path), CloudflareUrl(cid, path)]
  }

  /** A URI `ipfs://<cid>/<path>` expands to the three gateways, in order, each
      carrying exactly that identifier and path. */
  lemma GatewayUrlsOfPath(cid: string, path: string)
    requires '/' !in cid
    ensures BuildGatewayUrls(IpfsScheme + cid + "/" + path)
         == [W3sUrl(cid, path), IpfsIoUrl(cid, path), CloudflareUrl(cid, path)]
  {
    var uri := IpfsScheme + cid + "/" + path;
    assert StartsWith(uri, IpfsScheme) by {
      assert uri[..|IpfsScheme|] == IpfsScheme;
    }
    var rest := ReplaceFirst(uri, IpfsScheme, "");
    ReplacePrefix(uri, IpfsScheme, "");
    assert rest == uri[|IpfsScheme|..] == cid + ['/'] + path;
    BeforeFirstOfJoin(cid, '/', path);
    assert BeforeFirst(rest, '/') == cid;
    var pat := IpfsScheme + cid + "/";
    assert StartsWith(uri, pat) by {
      assert uri[..|pat|] == pat;
    }
    ReplacePrefix(uri, pat, "");
    assert ReplaceFirst(uri, pat, "") == uri[|pat|..] == path;
  }

  /** A URI `ipfs://<cid>` with nothing after the identifier keeps the whole URI as
      its path, because the pattern `ipfs://<cid>/` never occurs in it. */
  lemma GatewayUrlsWithoutPath(cid: string)
    requires '/' !in cid
    ensures var uri := IpfsScheme + cid;
            BuildGatewayUrls(uri) == [W3sUrl(cid, uri), IpfsIoUrl(cid, uri), CloudflareUrl(cid, uri)]
  {
    var uri := IpfsScheme + cid;
    assert StartsWith(uri, IpfsScheme) by {
      assert uri[..|IpfsScheme|] == IpfsScheme;
    }
    var rest := ReplaceFirst(uri, IpfsScheme, "");
    ReplacePrefix(uri, IpfsScheme, "");
    assert rest == uri[|IpfsScheme|..] == cid;
    assert BeforeFirst(rest, '/') == cid;
    ReplaceLongerPattern(uri, IpfsScheme + cid + "/", "");
    assert ReplaceFirst(uri, IpfsScheme + cid + "/", "") == uri;
  }

  /** The base URL `url.substring(0, url.lastIndexOf("/"))` used to resolve sibling
      references: the URL cut before its last `/`, or empty when it has none. */
  function BaseUrl(url: string): (b: string)
    ensures '/' in url ==> b + "/" + AfterLast(url, '/') == url
    ensures '/' !in url ==> b == ""
    ensures StartsWith(url, b)
  {
    SubstringTo(url, LastIndexOf(url, '/'))
  }

  /** A successful resolution: the parsed document and the base URL of the winner. */
  datatype Resolved = Resolved(data: Json, baseUrl: string)

  /** The candidates actually requested, in order, and what came of it. */
  datatype Resolution = Resolution(tried: seq<string>, result: Result<Resolved, string>)

  const AllGatewaysFailed := "All IPFS gateways failed."

  /** The `for … of` walk of `resolveWithFallback`: candidates are requested
      strictly in order; the first accepted one wins and nothing after it is
      requested; every earlier one failed; when none is accepted every candidate
      was requested and the walk fails with the exhaustion message. */
  function TryInOrder(urls: seq<string>, fetch: Fetcher): (r: Resolution)
    ensures r.tried <= urls
    ensures forall k :: 0 <= k < |r.tried| && (r.result.Err? || k < |r.tried| - 1) ==>
              Accepted(fetch(r.tried[k])).None?
    ensures r.result.Ok? ==>
              && |r.tried| > 0
              && Accepted(fetch(r.tried[|r.tried| - 1])) == Some(r.result.value.data)
              && r.result.value.baseUrl == BaseUrl(r.tried[|r.tried| - 1])
    ensures r.result.Err? ==> r.tried == urls && r.result.error == AllGatewaysFailed
    decreases |urls|
  {
    if |urls| == 0 then Resolution([], Err(AllGatewaysFailed))
    else
      match Accepted(fetch(urls[0]))
      case Some(data) => Resolution([urls[0]], Ok(Resolved(data, BaseUrl(urls[0]))))
      case None =>
        var rest := TryInOrder(urls[1..], fetch);
        assert urls == [urls[0]] + urls[1..];
        Resolution([urls[0]] + rest.tried, rest.result)
  }

  /** `resolveWithFallback(uri)`: the walk over the candidates of `uri`. */
  function ResolveWithFallback(uri: string, fetch: Fetcher): Resolution {
    TryInOrder(BuildGatewayUrls(uri), fetch)
  }

  /** What one resolution requests and returns: a URI without the `ipfs://` scheme
      is requested once, as it is; an `ipfs://` URI makes at most three requests,
      in candidate order, and all three when none is accepted; a success carries
      the last requested URL's document and base URL. */
  lemma ResolutionRequests(uri: string, fetch: Fetcher)
    ensures var r := ResolveWithFallback(uri, fetch);
            && r.tried <= BuildGatewayUrls(uri)
            && (!StartsWith(uri, IpfsScheme) ==> r.tried == [uri])
            && (StartsWith(uri, IpfsScheme) ==> 0 < |r.tried| <= 3)
            && (r.result.Err? ==> r.tried == BuildGatewayUrls(uri) && r.result.error == AllGatewaysFailed)
            && (r.result.Ok? ==>
                  var winner := r.tried[|r.tried| - 1];
                  && Accepted(fetch(winner)) == Some(r.result.value.data)
                  && r.result.value.baseUrl == BaseUrl(winner))
  {
  }

  /** Conversely: when candidate `k` is the first accepted one, the walk requests
      exactly the candidates up to `k` and returns its document. */
  lemma {:induction false} FirstAcceptedWins(urls: seq<string>, fetch: Fetcher, k: nat)
    requires k < |urls|
    requires Accepted(fetch(urls[k])).Some?
    requires forall j :: 0 <= j < k ==> Accepted(fetch(urls[j])).None?
    ensures TryInOrder(urls, fetch).tried == urls[..k + 1]
    ensures TryInOrder(urls, fetch).result
         == Ok(Resolved(Accepted(fetch(urls[k])).value, BaseUrl(urls[k])))
  {
    if k > 0 {
      assert Accepted(fetch(urls[0])).None?;
      RejectedHeadSkipped(urls, fetch);
      FirstAcceptedWins(urls[1..], fetch, k - 1);
      assert urls[..k + 1] == [urls[0]] + urls[1..][..k];
    } else {
      assert TryInOrder(urls, fetch).tried == [urls[0]];
    }
  }

  /** A rejected first candidate is requested and the walk goes on with the rest. */
  lemma RejectedHeadSkipped(urls: seq<string>, fetch: Fetcher)
    requires |urls| > 0 && Accepted(fetch(urls[0])).None?
    ensures var rest := TryInOrder(urls[1..], fetch);
            TryInOrder(urls, fetch) == Resolution([urls[0]] + rest.tried, rest.result)
  {
  }

  /** The walk only looks at whether each candidate is accepted and with what
      document: two networks that agree on that give the same resolution. */
  lemma {:induction false} OnlyAcceptanceMatters(urls: seq<string>, f: Fetcher, g: Fetcher)
    requires forall u :: Accepted(f(u)) == Accepted(g(u))
    ensures TryInOrder(urls, f) == TryInOrder(urls, g)
    decreases |urls|
  {
    if |urls| > 0 {
      assert Accepted(f(urls[0])) == Accepted(g(urls[0]));
      OnlyAcceptanceMatters(urls[1..], f, g);
    }
  }

  /** The network `fetch` with the outcome for `url` replaced by `o`. */
  function Override(fetch: Fetcher, url: string, o: FetchOutcome): Fetcher {
    u => if u == url then o else fetch(u)
  }

  /** A non-2xx response is handled exactly like a network error or a timeout: the
      walk moves on to the next candidate and ends the same way. */
  lemma NonOkStatusAdvances(urls: seq<string>, fetch: Fetcher, url: string, status: int, body: Body)
    requires !IsOkStatus(status)
    ensures TryInOrder(urls, Override(fetch, url, Response(status, body)))
         == TryInOrder(urls, Override(fetch, url, NetworkError))
    ensures TryInOrder(urls, Override(fetch, url, Response(status, body)))
         == TryInOrder(urls, Override(fetch, url, TimedOut))
  {
    var bad := Override(fetch, url, Response(status, body));
    var net := Override(fetch, url, NetworkError);
    var slow := Override(fetch, url, TimedOut);
    assert forall u :: Accepted(bad(u)) == Accepted(net(u));
    assert forall u :: Accepted(bad(u)) == Accepted(slow(u));
    OnlyAcceptanceMatters(urls, bad, net);
    OnlyAcceptanceMatters(urls, bad, slow);
  }

  /** Every gateway candidate of an `ipfs://` URI has a base URL that is itself an
      `https://` URL, so references resolved against it are plain HTTP URLs. */
  lemma GatewayBaseIsHttps(uri: string, k: nat)
    requires StartsWith(uri, IpfsScheme)
    requires k < 3
    ensures StartsWith(BaseUrl(BuildGatewayUrls(uri)[k]), "https://")
  {
    var cid := BeforeFirst(ReplaceFirst(uri, IpfsScheme, ""), '/');
    var path := ReplaceFirst(uri, IpfsScheme + cid + "/", "");
    if k == 0 {
      W3sBaseIsHttps(cid, path);
    } else if k == 1 {
      IpfsIoBaseIsHttps(cid, path);
    } else {
      CloudflareBaseIsHttps(cid, path);
    }
  }

  lemma W3sBaseIsHttps(cid: string, path: string)
    ensures StartsWith(BaseUrl(W3sUrl(cid, path)), "https://")
  {
    var url := W3sUrl(cid, path);
    assert url[8 + |cid| + 14] == '/';
    HttpsBaseOf(url, 8 + |cid| + 14);
  }

  lemma IpfsIoBaseIsHttps(cid: string, path: string)
    ensures StartsWith(BaseUrl(IpfsIoUrl(cid, path)), "https://")
  {
    var url := IpfsIoUrl(cid, path);
    assert url[20] == '/';
    HttpsBaseOf(url, 20);
  }

  lemma CloudflareBaseIsHttps(cid: string, path: string)
    ensures StartsWith(BaseUrl(CloudflareUrl(cid, path)), "https://")
  {
    var url := CloudflareUrl(cid, path);
    assert url[32] == '/';
    HttpsBaseOf(url, 32);
  }

  /** An `https://` URL with a `/` after its scheme has an `https://` base URL. */
  lemma HttpsBaseOf(url: string, slash: nat)
    requires StartsWith(url, "https://")
    requires 8 <= slash < |url| && url[slash] == '/'
    ensures StartsWith(BaseUrl(url), "https://")
  {
    var b := BaseUrl(url);
    assert LastIndexOf(url, '/') >= slash;
    assert b == url[..LastIndexOf(url, '/')];
    assert b[..8] == url[..8];
  }

  /** A prefix followed by a rest starts with that prefix, and dropping it gives the rest back. */
  lemma PrefixThenRest(p: string, rest: string)
    ensures StartsWith(p + rest, p)
    ensures (p + rest)[|p|..] == rest
  {
    assert (p + rest)[..|p|] == p;
  }

  /** The fixed gateway prefixes `resolveIpfsUrl` tries, in order. */
  const LegacyGateways: seq<string> :=
    ["https://ipfs.io/ipfs/", "https://w3s.link/ipfs/", "https://gateway.pinata.cloud/ipfs/"]

  const PlaceholderPath := "/placeholder.png"

  /** `resolveIpfsUrl(url)`: a falsy URL gives the local placeholder; an `ipfs://`
      URL gives one candidate per gateway prefix, in list order, each ending in the
      identifier-and-path after the scheme; any other URL is its own candidate. */
  function ResolveIpfsUrl(url: Option<string>): (r: seq<string>)
    ensures !Truthy(url) ==> r == [PlaceholderPath]
    ensures Truthy(url) && !StartsWith(url.value, IpfsScheme) ==> r == [url.value]
    ensures Truthy(url) && StartsWith(url.value, IpfsScheme) ==>
              && |r| == |LegacyGateways|
              && forall k :: 0 <= k < |r| ==>
                   && StartsWith(r[k], LegacyGateways[k])
                   && IpfsScheme + r[k][|LegacyGateways[k]|..] == url.value
  {
    if !Truthy(url) then [PlaceholderPath]
    else if StartsWith(url.value, IpfsScheme) then
      var cidPath := ReplaceFirst(url.value, IpfsScheme, "");
      ReplacePrefix(url.value, IpfsScheme, "");
      var r := seq(|LegacyGateways|, k requires 0 <= k < |LegacyGateways| => LegacyGateways[k] + cidPath);
      assert url.value == IpfsScheme + cidPath;
      forall k | 0 <= k < |r|
        ensures StartsWith(r[k], LegacyGateways[k]) && IpfsScheme + r[k][|LegacyGateways[k]|..] == url.value
      {
        PrefixThenRest(LegacyGateways[k], cidPath);
      }
      r
    else [url.value]
  }
}
