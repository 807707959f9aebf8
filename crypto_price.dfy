/**
 * The decision logic of the price proxy route: query defaults, the limit on the
 * number of coin ids, the mapping from the upstream outcome to the response
 * (status, body, headers), and the CORS pre-flight answer. The upstream request
 * itself is a parameter that yields an abstract outcome.
 */
module CryptoPrice {
  import opened Wrappers
  import opened Strings

  /** The query string, as its decoded name/value pairs in order. */
  type Query = seq<(string, string)>

  const DefaultIds := "bitcoin,ethereum"
  const DefaultCurrency := "usd"

  /** The most coin ids one request may ask for. */
  const MaxIds: nat := 50

  const TooManyIdsError := "Maximum 50 cryptocurrency IDs allowed"
  const TimeoutError := "Request timeout - please try again"
  const FetchFailedError := "Failed to fetch cryptocurrency prices"
  const UnknownError := "Unknown error"
  const UpstreamStatusPrefix := "CoinGecko API returned "

  /** Caching for shared caches (section 5.2.2.10 of RFC 9111, `s-maxage`) with a
      stale window (section 3 of RFC 5861, `stale-while-revalidate`). */
  const CacheControl := "public, s-maxage=60, stale-while-revalidate=120"
  const CdnCacheControl := "public, s-maxage=60"

  /** What the upstream request came to. */
  datatype Outcome =
    | Ok(json: string)                 // a 2xx answer and its JSON body
    | NotOk(status: nat)               // an answer outside 2xx
    | Aborted                          // the five-second timer fired first
    | Failed(message: Option<string>)  // any other throw; `None` when it is not an `Error`

  /** A JSON body: the upstream document passed through, or an error object. */
  datatype Body =
    | Upstream(json: string)
    | ErrorBody(error: string, message: Option<string>)

  datatype Response = Response(status: nat, body: Option<Body>, headers: seq<(string, string)>)

  /** What `GET` does with the query: answer at once, or ask upstream for these values. */
  datatype Plan = Reject(response: Response) | Fetch(ids: string, vsCurrency: string)

  /** `searchParams.get(name)`: the value of the first pair with that name. */
  function QueryGet(q: Query, name: string): (r: Option<string>)
    ensures r.None? <==> forall k | 0 <= k < |q| :: q[k].0 != name
    ensures r.Some? ==> exists k | 0 <= k < |q| :: q[k] == (name, r.value) && forall j | 0 <= j < k :: q[j].0 != name
  {
    if q == [] then None
    else if q[0].0 == name then Some(q[0].1)
    else
      var r := QueryGet(q[1..], name);
      if r.Some? then
        var k :| 0 <= k < |q[1..]| && q[1..][k] == (name, r.value) && forall j | 0 <= j < k :: q[1..][j].0 != name;
        assert q[k + 1] == (name, r.value);
        r
      else r
  }

  /** `searchParams.get(name) || fallback`: a missing or empty value takes the fallback. */
  function ParamOr(q: Query, name: string, fallback: string): (r: string)
    ensures QueryGet(q, name).Some? && QueryGet(q, name).value != "" ==> r == QueryGet(q, name).value
    ensures QueryGet(q, name).None? || QueryGet(q, name).value == "" ==> r == fallback
    ensures fallback != "" ==> r != ""
  {
    match QueryGet(q, name)
    case Some(v) => if v != "" then v else fallback
    case None => fallback
  }

  /** `ids.split(',').length > 50`. */
  predicate TooManyIds(ids: string) {
    |Split(ids, ',')| > MaxIds
  }

  function JsonHeaders(): seq<(string, string)> {
    [("Content-Type", "application/json")]
  }

  function CachingHeaders(): seq<(string, string)> {
    [("Content-Type", "application/json"),
     ("Cache-Control", CacheControl),
     ("CDN-Cache-Control", CdnCacheControl),
     ("Vercel-CDN-Cache-Control", CdnCacheControl)]
  }

  /** The parameter defaults and the id limit, before any upstream request. */
  function PlanFor(q: Query): (p: Plan)
    ensures p.Reject? <==> TooManyIds(ParamOr(q, "ids", DefaultIds))
    ensures p.Reject? ==> p.response.status == 400
    ensures p.Fetch? ==> p.ids == ParamOr(q, "ids", DefaultIds) && p.vsCurrency == ParamOr(q, "vs_currency", DefaultCurrency)
  {
    var ids := ParamOr(q, "ids", DefaultIds);
    var vsCurrency := ParamOr(q, "vs_currency", DefaultCurrency);
    if TooManyIds(ids) then Reject(Response(400, Some(ErrorBody(TooManyIdsError, None)), []))
    else Fetch(ids, vsCurrency)
  }

  /** The answer for an upstream outcome: the body passed through with caching on
      success, 504 on a timeout, 500 for everything else. */
  function Respond(outcome: Outcome): (r: Response)
    ensures r.status == 200 <==> outcome.Ok?
    ensures outcome.Ok? ==> r.body == Some(Upstream(outcome.json))
    ensures r.status == 504 <==> outcome.Aborted?
    ensures r.status in {200, 500, 504}
    ensures r.body.Some? && Header(r.headers, "Content-Type") == Some("application/json")
  {
    match outcome
    case Ok(json) => Response(200, Some(Upstream(json)), CachingHeaders())
    case NotOk(status) =>
      Response(500, Some(ErrorBody(FetchFailedError, Some(UpstreamStatusPrefix + NatToString(status)))), JsonHeaders())
    case Aborted => Response(504, Some(ErrorBody(TimeoutError, None)), JsonHeaders())
    case Failed(message) => Response(500, Some(ErrorBody(FetchFailedError, Some(message.GetOr(UnknownError)))), JsonHeaders())
  }

  /** `GET /api/crypto-price`, with the upstream request as `upstream(ids, vsCurrency)`. */
  function Get(q: Query, upstream: (string, string) -> Outcome): (r: Response)
    ensures r.status == 400 <==> TooManyIds(ParamOr(q, "ids", DefaultIds))
    ensures r.status == 400 ==> r.body == Some(ErrorBody(TooManyIdsError, None))
  {
    match PlanFor(q)
    case Reject(response) => response
    case Fetch(ids, vsCurrency) => Respond(upstream(ids, vsCurrency))
  }

  /** The pre-flight answer: no body, any origin, `GET` and `OPTIONS`. */
  function Options(): (r: Response)
    ensures r.status == 200 && r.body.None?
    ensures Header(r.headers, "Access-Control-Allow-Origin") == Some("*")
    ensures Header(r.headers, "Access-Control-Allow-Methods") == Some("GET, OPTIONS")
    ensures Header(r.headers, "Access-Control-Allow-Headers") == Some("Content-Type")
  {
    Response(200, None, [("Access-Control-Allow-Origin", "*"),
                         ("Access-Control-Allow-Methods", "GET, OPTIONS"),
                         ("Access-Control-Allow-Headers", "Content-Type")])
  }

  /** The value of the first header with this name. */
  function Header(headers: seq<(string, string)>, name: string): Option<string> {
    if headers == [] then None
    else if headers[0].0 == name then Some(headers[0].1)
    else Header(headers[1..], name)
  }

  // ---------------------------------------------------------------------------
  // Properties

  /** Without the parameters the route asks for bitcoin and ethereum in dollars. */
  lemma DefaultRequest(upstream: (string, string) -> Outcome)
    ensures PlanFor([]) == Fetch("bitcoin,ethereum", "usd")
    ensures Get([], upstream) == Respond(upstream("bitcoin,ethereum", "usd"))
  {
    DefaultIdsAccepted(DefaultIds, "bitcoin", "ethereum");
  }

  lemma DefaultIdsAccepted(ids: string, a: string, b: string)
    requires a == "bitcoin" && b == "ethereum" && ids == a + [','] + b
    ensures !TooManyIds(ids)
  {
    SplitLength(ids, ',');
    OneOccurrence(a, b, ',');
  }

  /** One separator between two pieces free of it. */
  lemma OneOccurrence(a: string, b: string, c: char)
    requires c !in a && c !in b
    ensures Occurrences(a + [c] + b, c) == 1
  {
    OccurrencesAppend(a, [c] + b, c);
    assert a + [c] + b == a + ([c] + b);
    assert ([c] + b)[1..] == b;
    NoOccurrences(a, c);
    NoOccurrences(b, c);
  }

  lemma {:induction false} NoOccurrences(s: string, c: char)
    requires c !in s
    ensures Occurrences(s, c) == 0
    decreases |s|
  {
    if s != [] {
      NoOccurrences(s[1..], c);
    }
  }

  /** An empty `ids` takes the default, like a missing one. */
  lemma EmptyParamDefaults(q: Query, name: string, fallback: string)
    requires (name, "") in q && forall k | 0 <= k < |q| && q[k].0 == name :: q[k].1 == ""
    ensures ParamOr(q, name, fallback) == fallback
  {
  }

  /** The limit counts commas: more than 49 of them is too many, whatever the pieces hold. */
  lemma TooManyIdsIffCommas(ids: string)
    ensures TooManyIds(ids) <==> Occurrences(ids, ',') >= MaxIds
  {
    SplitLength(ids, ',');
  }

  /** Fifty comma-free ids joined by commas are accepted, and so are fewer. */
  lemma FiftyIdsPass(pieces: seq<string>)
    requires 1 <= |pieces| <= MaxIds
    requires forall k | 0 <= k < |pieces| :: ',' !in pieces[k]
    ensures !TooManyIds(JoinWith(pieces, ','))
  {
    JoinSplit(pieces, ',');
  }

  /** Fifty-one pieces are refused, even when some of them are empty. */
  lemma FiftyOneIdsFail(pieces: seq<string>)
    requires |pieces| == MaxIds + 1
    requires forall k | 0 <= k < |pieces| :: ',' !in pieces[k]
    ensures TooManyIds(JoinWith(pieces, ','))
  {
    JoinSplit(pieces, ',');
  }

  /** Empty pieces count: a trailing comma adds one piece. */
  lemma TrailingCommaCounts(ids: string)
    ensures |Split(ids + ",", ',')| == |Split(ids, ',')| + 1
  {
    SplitLength(ids, ',');
    SplitLength(ids + ",", ',');
    OccurrencesAppend(ids, ",", ',');
    assert Occurrences(",", ',') == 1 by {
      assert ","[1..] == "";
    }
  }

  lemma {:induction false} OccurrencesAppend(a: string, b: string, c: char)
    ensures Occurrences(a + b, c) == Occurrences(a, c) + Occurrences(b, c)
    decreases |a|
  {
    if a == [] {
      assert a + b == b;
    } else {
      assert (a + b)[1..] == a[1..] + b;
      OccurrencesAppend(a[1..], b, c);
    }
  }

  /** A refused request never reaches upstream: the answer is the same whatever
      upstream would have said. */
  lemma RejectIgnoresUpstream(q: Query, upstream1: (string, string) -> Outcome, upstream2: (string, string) -> Outcome)
    requires TooManyIds(ParamOr(q, "ids", DefaultIds))
    ensures Get(q, upstream1) == Get(q, upstream2)
  {
  }

  /** An accepted request answers with what upstream's outcome maps to. */
  lemma AcceptedFollowsUpstream(q: Query, upstream: (string, string) -> Outcome)
    requires !TooManyIds(ParamOr(q, "ids", DefaultIds))
    ensures Get(q, upstream) == Respond(upstream(ParamOr(q, "ids", DefaultIds), ParamOr(q, "vs_currency", DefaultCurrency)))
  {
  }

  /** A success is cached by shared caches for sixty seconds, may be served stale
      for another two minutes, and is cached for sixty seconds by the CDNs. */
  lemma SuccessHeaders(json: string)
    ensures Header(Respond(Ok(json)).headers, "Cache-Control") == Some("public, s-maxage=60, stale-while-revalidate=120")
    ensures Header(Respond(Ok(json)).headers, "CDN-Cache-Control") == Some("public, s-maxage=60")
    ensures Header(Respond(Ok(json)).headers, "Vercel-CDN-Cache-Control") == Some("public, s-maxage=60")
  {
  }

  /** Errors are never cached. */
  lemma ErrorsNotCached(outcome: Outcome)
    requires !outcome.Ok?
    ensures Header(Respond(outcome).headers, "Cache-Control") == None
  {
  }

  /** An upstream status `s` outside 2xx is reported as a 500 naming `s`. */
  lemma UpstreamStatusReported(s: nat)
    ensures Respond(NotOk(s)).status == 500
    ensures Respond(NotOk(s)).body == Some(ErrorBody("Failed to fetch cryptocurrency prices", Some("CoinGecko API returned " + NatToString(s))))
  {
  }

  /** A timeout is a 504 asking to try again. */
  lemma TimeoutReported()
    ensures Respond(Aborted) == Response(504, Some(ErrorBody("Request timeout - please try again", None)),
                                         [("Content-Type", "application/json")])
  {
  }

  /** A throw that is not an `Error` is reported with "Unknown error". */
  lemma UnknownFailure()
    ensures Respond(Failed(None)).body == Some(ErrorBody("Failed to fetch cryptocurrency prices", Some("Unknown error")))
  {
  }
}
