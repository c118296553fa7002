/** The request helpers of `src/services/api.js`. `fetch` is a parameter
    (what the network answers for a URL) and JSON bodies are the datatypes
    below; only the decisions the helpers take on those answers are
    modelled. */
module Api {
  import opened Wrappers
  import opened Text

  const Unknown: string := "unknown"

  /** What `fetch(endpoint)` gives: a failure to connect, or a response with
      its `ok` flag and its body (`None` when `response.json()` throws). */
  datatype FetchOutcome<T> = NetworkError | Response(ok: bool, body: Option<T>)

  /** `fetchData`: the parsed body, or `null` when the request fails, the
      status is not ok or the body does not parse. */
  function FetchData<T>(outcome: FetchOutcome<T>): (r: Option<T>)
    ensures r.Some? <==> outcome.Response? && outcome.ok && outcome.body.Some?
    ensures r.Some? ==> r.value == outcome.body.value
  {
    match outcome
    case NetworkError => None
    case Response(ok, body) => if ok then body else None
  }

  // ---------------------------------------------------------------------
  // STAC search results

  /** The STAC `context` block. */
  datatype Context = Context(matched: nat, returned: nat)

  /** A STAC response body: `features` and `collections` are `None` when the
      key is absent. */
  datatype StacResponse<T> = StacResponse(
    features: Option<seq<T>>,
    collections: Option<seq<T>>,
    context: Option<Context>)

  /** `getResultArray`: `features` when present, else `collections`, else `[]`. */
  function GetResultArray<T>(result: StacResponse<T>): (r: seq<T>)
    ensures result.features.Some? ==> r == result.features.value
    ensures result.features.None? && result.collections.Some? ==> r == result.collections.value
    ensures result.features.None? && result.collections.None? ==> r == []
  {
    if result.features.Some? then result.features.value
    else if result.collections.Some? then result.collections.value
    else []
  }

  /** `addOffsetsToURL(url, limit)`: `&limit=N` when the URL already has a
      query, `?limit=N` otherwise. */
  function AddOffsetsToUrl(url: string, limit: nat): (r: string)
    ensures '?' in r
    ensures '?' in url ==> r == url + "&limit=" + NatToString(limit)
    ensures '?' !in url ==> r == url + "?limit=" + NatToString(limit)
  {
    if '?' in url then url + "&limit=" + NatToString(limit)
    else url + "?limit=" + NatToString(limit)
  }

  /** On a URL without a query, the `?` that is added separates the URL
      from the `limit` parameter and nothing else. */
  lemma AddOffsetsQuery(url: string, limit: nat)
    requires '?' !in url
    ensures Split(AddOffsetsToUrl(url, limit), '?') == [url, "limit=" + NatToString(limit)]
  {
    var q := "limit=" + NatToString(limit);
    assert '?' !in q by {
      assert forall i :: 0 <= i < |NatToString(limit)| ==> q[6 + i] == NatToString(limit)[i];
    }
    assert AddOffsetsToUrl(url, limit) == url + ['?'] + q;
    SplitAfterPrefix(url, '?', q);
    SplitWhole(q, '?');
  }

  /** `fetchAllDataSTAC`: one request with `limit` set to the match count;
      `[]` when that request fails. */
  function FetchAllDataStac<T>(url: string, numberMatched: nat, fetch: string -> Option<StacResponse<T>>): (r: seq<T>)
    ensures fetch(AddOffsetsToUrl(url, numberMatched)).None? ==> r == []
    ensures fetch(AddOffsetsToUrl(url, numberMatched)).Some? ==>
      r == GetResultArray(fetch(AddOffsetsToUrl(url, numberMatched)).value)
  {
    var json := fetch(AddOffsetsToUrl(url, numberMatched));
    if json.None? then [] else GetResultArray(json.value)
  }

  /** `fetchAllFromSTACAPI` as written. `None` is the `undefined` it returns
      when the first body has no `context` (the destructuring throws and the
      `catch` returns nothing). When the first page already holds every
      match, the result is `[]`: `requiredResult` is never filled. */
  function FetchAllFromStacApiAsWritten<T>(url: string, fetch: string -> Option<StacResponse<T>>): (r: Option<seq<T>>)
    ensures fetch(url).None? ==> r == Some([])
    ensures fetch(url).Some? && fetch(url).value.context.None? ==> r.None?
    ensures fetch(url).Some? && fetch(url).value.context.Some? ==>
      var c := fetch(url).value.context.value;
      (c.matched > c.returned ==> r == Some(FetchAllDataStac(url, c.matched, fetch)))
      && (c.matched <= c.returned ==> r == Some([]))
  {
    var json := fetch(url);
    if json.None? then Some([])
    else if json.value.context.None? then None
    else
      var c := json.value.context.value;
      if c.matched > c.returned then Some(FetchAllDataStac(url, c.matched, fetch))
      else Some([])
  }

  /** The items of a collection small enough for one page are dropped. */
  lemma SinglePageIsDropped(item: int)
    ensures var fetch := (u: string) => Some(StacResponse(Some([item]), None, Some(Context(1, 1))));
            FetchAllFromStacApiAsWritten("items", fetch) == Some([])
  {
  }

  /** `fetchAllFromSTACAPI` as evidently intended: when the first page holds
      every match, its own results are returned. */
  function FetchAllFromStacApi<T>(url: string, fetch: string -> Option<StacResponse<T>>): (r: Option<seq<T>>)
    ensures fetch(url).None? ==> r == Some([])
    ensures fetch(url).Some? && fetch(url).value.context.None? ==> r.None?
    ensures fetch(url).Some? && fetch(url).value.context.Some? ==>
      var c := fetch(url).value.context.value;
      (c.matched > c.returned ==> r == Some(FetchAllDataStac(url, c.matched, fetch)))
      && (c.matched <= c.returned ==> r == Some(GetResultArray(fetch(url).value)))
  {
    var json := fetch(url);
    if json.None? then Some([])
    else if json.value.context.None? then None
    else
      var c := json.value.context.value;
      if c.matched > c.returned then Some(FetchAllDataStac(url, c.matched, fetch))
      else Some(GetResultArray(json.value))
  }

  /** The corrected version keeps a complete first page, and agrees with the
      code as written whenever a second request is made. */
  lemma CompleteFirstPageIsKept<T>(url: string, fetch: string -> Option<StacResponse<T>>)
    requires fetch(url).Some? && fetch(url).value.context.Some?
    ensures var c := fetch(url).value.context.value;
            c.matched <= c.returned ==> FetchAllFromStacApi(url, fetch) == Some(GetResultArray(fetch(url).value))
    ensures var c := fetch(url).value.context.value;
            c.matched > c.returned ==> FetchAllFromStacApi(url, fetch) == FetchAllFromStacApiAsWritten(url, fetch)
  {
  }

  // ---------------------------------------------------------------------
  // Locations

  /** The `properties` of a reverse-geocoding feature; `None` is a missing
      key. */
  datatype LocationProperties = LocationProperties(
    city: Option<string>,
    county: Option<string>,
    state: Option<string>,
    country: Option<string>)

  /** A reverse-geocoding answer: its features, each with or without
      `properties`. */
  datatype LocationResponse = LocationResponse(features: seq<Option<LocationProperties>>)

  /** JavaScript truthiness of an optional string. */
  predicate Truthy(s: Option<string>) {
    s.Some? && s.value != ""
  }

  /** `city || county || UNKNOWN`. */
  function SubLocation(p: LocationProperties): (sub: string)
    ensures sub != ""
    ensures Truthy(p.city) ==> sub == p.city.value
    ensures !Truthy(p.city) && Truthy(p.county) ==> sub == p.county.value
    ensures !Truthy(p.city) && !Truthy(p.county) ==> sub == Unknown
  {
    if Truthy(p.city) then p.city.value
    else if Truthy(p.county) then p.county.value
    else Unknown
  }

  /** The location text: `sub + ", " + statePart + " " + country`. */
  function FormatLocation(p: LocationProperties): (s: string)
    ensures s == SubLocation(p) + ", " + (if Truthy(p.state) then p.state.value + ", " else "") + " "
                 + (if Truthy(p.country) then p.country.value else "")
  {
    var state := if Truthy(p.state) then p.state.value + ", " else "";
    var country := if Truthy(p.country) then p.country.value else "";
    SubLocation(p) + ", " + state + " " + country
  }

  /** The text starts with a non-empty place name followed by `, `: it
      never starts with the separator. */
  lemma FormatLocationShape(p: LocationProperties)
    ensures var s := FormatLocation(p); var sub := SubLocation(p);
            |sub| > 0 && StartsWith(s, sub + ", ")
  {
    var s := FormatLocation(p);
    var sub := SubLocation(p);
    assert s[..|sub + ", "|] == sub + ", ";
  }

  /** `fetchLocationFromEndpoint` given what `fetchData` returned: `unknown`
      when the body is `null`, has no feature or the first feature has no
      properties (each of these throws and is caught), the formatted
      location otherwise. */
  function FetchLocationFromEndpoint(locationData: Option<LocationResponse>): (s: string)
    ensures (locationData.None? || |locationData.value.features| == 0 || locationData.value.features[0].None?)
            ==> s == Unknown
    ensures locationData.Some? && |locationData.value.features| > 0 && locationData.value.features[0].Some?
            ==> s == FormatLocation(locationData.value.features[0].value)
  {
    if locationData.None? || |locationData.value.features| == 0 || locationData.value.features[0].None? then Unknown
    else FormatLocation(locationData.value.features[0].value)
  }

  /** A value of the static `locationLookup.json`. */
  datatype LookupValue = LookupString(s: string) | LookupOther

  /** `getLocationForFeature`: a lookup entry that is a string other than
      `unknown` is returned as it is. Otherwise the function reads
      `config`, which the file does not import, so it rejects with a
      `ReferenceError` before any request. */
  function GetLocationForFeature(lookup: map<string, LookupValue>, plumeId: string): (r: Result<string, string>)
    ensures r.Success? <==>
      plumeId in lookup && lookup[plumeId].LookupString? && lookup[plumeId].s != Unknown
    ensures r.Success? ==> r.value == lookup[plumeId].s
  {
    if plumeId in lookup && lookup[plumeId].LookupString? && lookup[plumeId].s != Unknown then
      Success(lookup[plumeId].s)
    else Failure("ReferenceError: config is not defined")
  }
}
