/**
 `get_common_parameters` from x2t/tiktok.py: the headers and query parameters
 every TikTok Open API call starts from, built from an auth object and one
 clock reading; and how they fit the other two helpers.
 */
module TikTokCommon {
  import opened Sorting
  import opened PyData
  import opened Text
  import TikTokRequest
  import TikTokSign

  /** `object.service_id` */
  datatype Service = Service(appKey: string)

  /** The two attributes `get_common_parameters` reads from its argument. */
  datatype AuthObject = AuthObject(accessToken: string, serviceId: Service)

  const DefaultContentType: string := "application/json"
  const AccessTokenHeader: string := "x-tts-access-token"
  const ContentTypeHeader: string := "Content-Type"
  const AppKeyParam: string := "app_key"

  /** `get_common_parameters(object, content_type)`, with the clock reading
      passed in as `now`: the headers and the query parameters, in that
      order. */
  function GetCommonParameters(auth: AuthObject, now: real, contentType: string := DefaultContentType)
    : (r: (Items<string>, Items<string>))
    ensures DistinctKeys(r.0) && Keys(r.0) == [AccessTokenHeader, ContentTypeHeader]
    ensures ToMap(r.0)[AccessTokenHeader] == auth.accessToken
    ensures ToMap(r.0)[ContentTypeHeader] == contentType
    ensures DistinctKeys(r.1) && Keys(r.1) == [AppKeyParam, TikTokRequest.TimestampKey]
    ensures ToMap(r.1)[AppKeyParam] == auth.serviceId.appKey
    ensures ToMap(r.1)[TikTokRequest.TimestampKey] == TimestampString(now)
    ensures ParseDecimal(ToMap(r.1)[TikTokRequest.TimestampKey]) == Some(TruncateTowardZero(now))
  {
    var timestamp := TimestampString(now);
    var headers := [(AccessTokenHeader, auth.accessToken), (ContentTypeHeader, contentType)];
    var queries := [(AppKeyParam, auth.serviceId.appKey), (TikTokRequest.TimestampKey, timestamp)];
    assert Keys(headers) == [AccessTokenHeader, ContentTypeHeader];
    assert Keys(queries) == [AppKeyParam, TikTokRequest.TimestampKey];
    ToMapAt(headers, 0);
    ToMapAt(headers, 1);
    ToMapAt(queries, 0);
    ToMapAt(queries, 1);
    (headers, queries)
  }

  /** The common queries already carry a timestamp, so `request_common` sends
      them unchanged whatever the clock says by then: both fields come from
      the one reading taken here. */
  lemma CommonQueriesKeepTheirTimestamp(auth: AuthObject, now: real, later: real, contentType: string)
    ensures var queries := GetCommonParameters(auth, now, contentType).1;
      TikTokRequest.WithTimestamp(queries, TimestampString(later)) == queries
  {
  }

  /** Signing the common queries covers `app_key` then `timestamp` (they are
      already in ascending order), each followed by its value. */
  lemma CommonQueriesParamBlock(auth: AuthObject, now: real, contentType: string)
    ensures var queries := GetCommonParameters(auth, now, contentType).1;
      && TikTokSign.SignKeys(queries) == [AppKeyParam, TikTokRequest.TimestampKey]
      && TikTokSign.ParamBlock(TikTokSign.SignKeys(queries), ToMap(queries), Identity)
         == AppKeyParam + auth.serviceId.appKey + TikTokRequest.TimestampKey + TimestampString(now)
  {
    var queries := GetCommonParameters(auth, now, contentType).1;
    CommonBlock(queries, auth.serviceId.appKey, TimestampString(now));
  }

  lemma CommonBlock(queries: Items<string>, appKey: string, ts: string)
    requires Keys(queries) == [AppKeyParam, TikTokRequest.TimestampKey]
    requires ToMap(queries)[AppKeyParam] == appKey && ToMap(queries)[TikTokRequest.TimestampKey] == ts
    ensures TikTokSign.SignKeys(queries) == [AppKeyParam, TikTokRequest.TimestampKey]
    ensures TikTokSign.ParamBlock(TikTokSign.SignKeys(queries), ToMap(queries), Identity)
         == AppKeyParam + appKey + TikTokRequest.TimestampKey + ts
  {
    CommonSignKeys(queries);
    TikTokSign.TwoKeyBlock(AppKeyParam, TikTokRequest.TimestampKey, ToMap(queries), Identity);
    assert TikTokRequest.TimestampKey + ts + "" == TikTokRequest.TimestampKey + ts;
  }

  lemma CommonSignKeys(queries: Items<string>)
    requires Keys(queries) == [AppKeyParam, TikTokRequest.TimestampKey]
    ensures TikTokSign.SignKeys(queries) == [AppKeyParam, TikTokRequest.TimestampKey]
  {
    var keys := Keys(queries);
    assert keys[1..] == [TikTokRequest.TimestampKey] && keys[1..][1..] == [];
    assert TikTokSign.UnreservedKeys(keys[1..][1..]) == [];
    assert TikTokSign.UnreservedKeys(keys[1..]) == keys[1..];
    assert Less(AppKeyParam, TikTokRequest.TimestampKey);
    TikTokSign.TwoSignKeys(queries, AppKeyParam, TikTokRequest.TimestampKey);
  }
}
