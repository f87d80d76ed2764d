/**
 `request_common` from x2t/tiktok.py: check the HTTP verb, make sure the
 query carries a `timestamp`, and assemble the URL handed to the transport.
 The transport call itself is not modelled; the method returns the call it
 would make.
 */
module TikTokRequest {
  import opened PyData
  import opened Text

  /** The `requests` function passed as `method`; anything else is `Other`. */
  datatype Verb = Get | Post | Put | Patch | Delete | Other(name: string)

  const AllowedVerbs: set<Verb> := {Get, Post, Put, Patch, Delete}

  const InvalidMethodMessage: string := "Invalid method. Method must be one of: post, put, patch, delete."

  datatype Error = ValueError(message: string)

  datatype Result<T> = Ok(value: T) | Err(error: Error)

  /** The arguments of `method(url=..., headers=..., json=...)`. */
  datatype HttpCall = HttpCall(verb: Verb, url: string, headers: Option<Items<string>>, json: Json)

  const TimestampKey: string := "timestamp"

  /** The query after timestamp injection: unchanged if it already has a
      `timestamp`, otherwise the same items followed by `timestamp = ts`. */
  function WithTimestamp(items: Items<string>, ts: string): (r: Items<string>)
    requires DistinctKeys(items)
    ensures DistinctKeys(r)
    ensures TimestampKey in ToMap(r) && ToMap(r)[TimestampKey] == if TimestampKey in ToMap(items) then ToMap(items)[TimestampKey] else ts
    ensures forall k :: k != TimestampKey ==> (k in ToMap(r) <==> k in ToMap(items))
    ensures forall k :: k != TimestampKey && k in ToMap(items) ==> ToMap(r)[k] == ToMap(items)[k]
    ensures |items| <= |r| && r[..|items|] == items
    ensures TimestampKey in ToMap(items) ==> r == items
  {
    if TimestampKey in ToMap(items) then items
    else
      AssignDistinct(items, TimestampKey, ts);
      AssignMap(items, TimestampKey, ts);
      AssignAbsent(items, TimestampKey, ts);
      Assign(items, TimestampKey, ts)
  }

  /** One `key=value` pair of `urlencode`, each side percent-quoted by `quote`. */
  function EncodePair(p: (string, string), quote: string -> string): string {
    quote(p.0) + "=" + quote(p.1)
  }

  /** `urllib.parse.urlencode(items)`: the quoted pairs in dict order, joined
      by `&`. */
  function UrlEncode(items: Items<string>, quote: string -> string): (q: string)
    ensures q == "" <==> items == []
  {
    if items == [] then ""
    else if |items| == 1 then EncodePair(items[0], quote)
    else UrlEncode(items[..|items| - 1], quote) + "&" + EncodePair(items[|items| - 1], quote)
  }

  /** `f"{base_url.rstrip('/')}/{endpoint.lstrip('/')}?{query_string}"` */
  function BuildUrl(baseUrl: string, endpoint: string, query: string): string {
    RStrip(baseUrl, '/') + "/" + LStrip(endpoint, '/') + "?" + query
  }

  /** Cutting the base URL at `n` removes exactly its trailing slashes, and
      cutting the endpoint at `m` removes exactly its leading slashes. */
  predicate SlashCut(baseUrl: string, endpoint: string, n: int, m: int) {
    && 0 <= n <= |baseUrl| && 0 <= m <= |endpoint|
    && (forall i :: n <= i < |baseUrl| ==> baseUrl[i] == '/')
    && (n == 0 || baseUrl[n - 1] != '/')
    && (forall i :: 0 <= i < m ==> endpoint[i] == '/')
    && (m == |endpoint| || endpoint[m] != '/')
  }

  /** The URL the source describes: the base without trailing slashes, one
      slash, the endpoint without leading slashes, `?`, the query. */
  ghost predicate IsJoin(url: string, baseUrl: string, endpoint: string, query: string) {
    exists n, m :: SlashCut(baseUrl, endpoint, n, m)
      && url == baseUrl[..n] + "/" + endpoint[m..] + "?" + query
  }

  lemma SlashCutUnique(baseUrl: string, endpoint: string, n1: int, m1: int, n2: int, m2: int)
    requires SlashCut(baseUrl, endpoint, n1, m1) && SlashCut(baseUrl, endpoint, n2, m2)
    ensures n1 == n2 && m1 == m2
  {
  }

  /** `BuildUrl` produces exactly the URL described by `IsJoin`, and no other
      string is such a URL. */
  lemma BuildUrlIsTheJoin(url: string, baseUrl: string, endpoint: string, query: string)
    ensures IsJoin(url, baseUrl, endpoint, query) <==> url == BuildUrl(baseUrl, endpoint, query)
  {
    var head, tail := RStrip(baseUrl, '/'), LStrip(endpoint, '/');
    var n, m := |head|, |endpoint| - |tail|;
    assert SlashCut(baseUrl, endpoint, n, m);
    assert BuildUrl(baseUrl, endpoint, query) == baseUrl[..n] + "/" + endpoint[m..] + "?" + query;
    if IsJoin(url, baseUrl, endpoint, query) {
      var n', m' :| SlashCut(baseUrl, endpoint, n', m')
        && url == baseUrl[..n'] + "/" + endpoint[m'..] + "?" + query;
      SlashCutUnique(baseUrl, endpoint, n, m, n', m');
    }
  }

  /** When the caller's non-empty query has no `timestamp`, the injected pair
      is the last one of the encoded query string. */
  lemma InjectedTimestampComesLast(items: Items<string>, ts: string, quote: string -> string)
    requires DistinctKeys(items) && items != [] && TimestampKey !in ToMap(items)
    ensures UrlEncode(WithTimestamp(items, ts), quote)
         == UrlEncode(items, quote) + "&" + quote(TimestampKey) + "=" + quote(ts)
  {
    var r := WithTimestamp(items, ts);
    AssignAbsent(items, TimestampKey, ts);
    assert r[..|r| - 1] == items;
  }

  /** `request_common`. On an allowed verb the caller's `params` is updated
      in place when it is a non-empty dict; `None` or an empty dict is
      replaced by a fresh dict, so the caller's object is left alone. */
  method RequestCommon(
    baseUrl: string,
    endpoint: string,
    verb: Verb,
    params: Dict?,
    headers: Option<Items<string>>,
    body: Json,
    now: real,
    quote: string -> string
  ) returns (r: Result<HttpCall>)
    requires params != null ==> params.Valid()
    modifies params
    ensures params != null ==> params.Valid()
    ensures verb !in AllowedVerbs ==>
      && r == Err(ValueError(InvalidMethodMessage))
      && (params != null ==> params.items == old(params.items))
    ensures verb in AllowedVerbs ==>
      var given := if params == null then [] else old(params.items);
      var sent := WithTimestamp(given, TimestampString(now));
      && r == Ok(HttpCall(verb, BuildUrl(baseUrl, endpoint, UrlEncode(sent, quote)), headers, body))
      && (params != null ==> params.items == if given == [] then given else sent)
  {
    if verb !in AllowedVerbs {
      return Err(ValueError(InvalidMethodMessage));
    }
    var p: Dict;
    if params != null && !params.IsEmpty() {
      p := params;
    } else {
      p := new Dict();
    }
    if !p.Contains(TimestampKey) {
      p.SetItem(TimestampKey, TimestampString(now));
    }
    var queryString := UrlEncode(p.items, quote);
    var url := BuildUrl(baseUrl, endpoint, queryString);
    r := Ok(HttpCall(verb, url, headers, body));
  }
}
