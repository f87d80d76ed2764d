# TikTok request helpers of x2t, in Dafny

This project models the three helpers in `x2t/tiktok.py` that prepare a call
to the TikTok Open API:

- `request_common` checks the HTTP verb. It adds a `timestamp` query
  parameter when the caller's parameters have none, and it assembles the URL
  `base/endpoint?query`. The model is an imperative method over a mutable
  dict object (`PyData.Dict`), because the source updates a non-empty caller
  dict in place. It returns the call it would hand to `requests` instead of
  making it.
- `sign` builds the string that is signed: the unreserved parameters in
  ascending key order, each key followed by its value, then the JSON body
  when the body is a dict, all framed by the app secret and the endpoint. It
  then takes the HMAC-SHA256 digest of that string. The model is pure
  functions plus lemmas.
- `get_common_parameters` builds the fixed header and query dicts from an
  auth object and one clock reading.

Modules:

- `Sorting`: the code-point order on strings that Python's `sorted` uses,
  and an insertion sort proved sorted and a permutation.
- `PyData`: insertion-ordered dicts as item lists, with `d[k] = v` and
  `d.pop(k, None)`; the mutable `Dict` class; JSON values.
- `Text`: `rstrip`/`lstrip` of one character, `str()` of an integer and
  `int()` of a float.
- `TikTokRequest`, `TikTokSign` and `TikTokCommon`: the three helpers.

Foreign code is passed in as function parameters:

- `quote`: the percent-quoting of `urllib.parse.urlencode`.
- `dumps`: `json.dumps`.
- `hmacSha256Hex`: `hmac.new(key, msg, sha256).hexdigest()`, applied to the
  secret and the signing input.
- `str`: `str()` of a parameter value.

The wall clock (`datetime.timestamp(datetime.now())`) is the `now: real`
parameter.

## Model

| member | source | states |
|---|---|---|
| Sorting.Less | x2t/tiktok.py:93 | Python's `<` on `str`, the order `sorted` uses: code points compared left to right, a proper prefix first |
| Sorting.LessIsLexicographic | x2t/tiktok.py:93 | `Less` holds exactly when some position decides for `a`: the strings agree before it and there `a` has ended or has the smaller code point |
| Sorting.LessIrreflexive | x2t/tiktok.py:93 | no string sorts strictly before itself |
| Sorting.LessTransitive | x2t/tiktok.py:93 | the code-point order used by `sorted` is transitive |
| Sorting.LessTotal | x2t/tiktok.py:93 | any two distinct strings are ordered one way or the other |
| Sorting.Insert | x2t/tiktok.py:93 | inserting into a sorted list keeps it sorted and adds exactly that element |
| Sorting.Sort | x2t/tiktok.py:93 | `sorted(...)` returns an ascending permutation of its input |
| Sorting.SortedPermutationsEqual | x2t/tiktok.py:93 | two ascending orderings of the same multiset of strings are equal, so the sorted order is unique |
| Sorting.SortPermutationInvariant | x2t/tiktok.py:93 | sorting depends only on the multiset of keys, not on their order |
| Sorting.SortTwo | x2t/tiktok.py:93 | two keys come out smaller first, whichever order they came in |
| PyData.Keys | x2t/tiktok.py:93 | `for key in params`: the dict's keys in insertion order |
| PyData.ToMap | x2t/tiktok.py:55 | `k in d` and `d[k]`: a key is in the mapping exactly when it is one of the dict's keys |
| PyData.ToMapAt | x2t/tiktok.py:94 | `params[key]` is the value stored with `key` |
| PyData.Assign | x2t/tiktok.py:56 | `params["timestamp"] = ...` on the items: an existing key keeps its place and takes the value, a new key is appended |
| PyData.AssignMap | x2t/tiktok.py:56 | after `d[k] = v`, `d[k]` is `v` and every other key maps as before |
| PyData.AssignKeys | x2t/tiktok.py:56 | `d[k] = v` keeps the key order and appends `k` when it is new |
| PyData.AssignAbsent | x2t/tiktok.py:56 | assigning a new key appends exactly that item at the end |
| PyData.AssignDistinct | x2t/tiktok.py:56 | `d[k] = v` keeps every key unique |
| PyData.Remove | x2t/tiktok.py:93 | `d.pop(k, None)`, used to state what deleting a reserved key does to the signature |
| PyData.RemoveDistinct | x2t/tiktok.py:93 | removing a key leaves unique keys and adds none |
| PyData.RemoveMap | x2t/tiktok.py:93 | after removing `k` the mapping is the old one without `k` |
| PyData.Dict.constructor | x2t/tiktok.py:54 | `{}`: a fresh empty dict |
| PyData.Dict.IsEmpty | x2t/tiktok.py:54 | the truthiness test of `params or {}`: false exactly for an empty dict |
| PyData.Dict.Contains | x2t/tiktok.py:55 | `"timestamp" in params`, read through the dict's mapping |
| PyData.Dict.SetItem | x2t/tiktok.py:56 | `params["timestamp"] = ...` updates the caller's dict in place and keeps it a dict |
| Text.RStrip | x2t/tiktok.py:58 | `rstrip('/')` is a prefix that does not end in `/`, and only `/` was removed |
| Text.LStrip | x2t/tiktok.py:58 | `lstrip('/')` is a suffix that does not start with `/`, and only `/` was removed |
| Text.NatToDecimal | x2t/tiktok.py:56 | `str(n)` is a non-empty string of digits with no leading zero |
| Text.IntToDecimal | x2t/tiktok.py:56 | `str(i)` of an integer: non-empty, and it starts with `-` exactly when `i` is negative |
| Text.NatToDecimalValue | x2t/tiktok.py:56 | the digits of `str(n)` read back as `n` |
| Text.IntToDecimalRoundTrip | x2t/tiktok.py:56 | `str(i)` parses back to `i`, sign included |
| Text.IntToDecimalInjective | x2t/tiktok.py:56 | distinct integers give distinct timestamp strings |
| Text.TruncateTowardZero | x2t/tiktok.py:56 | `int(t)` is the integer part of `t`, rounding toward zero on both signs |
| Text.TimestampString | x2t/tiktok.py:56 | the timestamp parses back to the whole seconds of the clock reading |
| TikTokRequest.WithTimestamp | x2t/tiktok.py:54-56 | the query gains `timestamp` only when it lacks one, with the clock's value; an existing one is kept; no other entry is added, removed or changed |
| TikTokRequest.EncodePair | x2t/tiktok.py:57 | one `key=value` pair of `urlencode`, both sides passed through `quote` |
| TikTokRequest.UrlEncode | x2t/tiktok.py:57 | the encoded query is empty exactly when there are no parameters |
| TikTokRequest.BuildUrl | x2t/tiktok.py:58 | the f-string of line 58: stripped base, `/`, stripped endpoint, `?`, query |
| TikTokRequest.SlashCutUnique | x2t/tiktok.py:58 | there is only one way to cut off the trailing and leading slashes |
| TikTokRequest.BuildUrlIsTheJoin | x2t/tiktok.py:58 | the URL is the base without trailing `/`, one `/`, the endpoint without leading `/`, `?`, the query; no other string is |
| TikTokRequest.InjectedTimestampComesLast | x2t/tiktok.py:55-57 | an injected timestamp is the last `key=value` pair of a non-empty query |
| TikTokRequest.RequestCommon | x2t/tiktok.py:11-59 | a verb outside get/post/put/patch/delete gives `ValueError` and touches nothing; otherwise the call carries the joined URL with the timestamped query, the headers and the body, and only a non-empty caller dict is updated |
| TikTokSign.UnreservedKeys | x2t/tiktok.py:93 | exactly the keys other than `sign` and `access_token` remain, still unique |
| TikTokSign.SignKeys | x2t/tiktok.py:93 | the signed keys are exactly the dict's unreserved keys |
| TikTokSign.ParamBlock | x2t/tiktok.py:94 | `"".join(key + str(params[key]) for key in keys)` |
| TikTokSign.BodyText | x2t/tiktok.py:96-98 | `json.dumps(body)` when `body` is a dict, nothing otherwise |
| TikTokSign.InputData | x2t/tiktok.py:94-98 | the local `input_data` after line 98: the parameter block followed by the body text |
| TikTokSign.Framed | x2t/tiktok.py:100 | `app_secret + endpoint + input_data + app_secret` |
| TikTokSign.SigningInput | x2t/tiktok.py:93-100 | the string that `sign` digests: the framed parameter block and body text |
| TikTokSign.Sign | x2t/tiktok.py:62-101 | `sign`: the HMAC-SHA256 hex digest, keyed by the app secret, of the signing input |
| TikTokSign.SignKeysAscending | x2t/tiktok.py:93 | the signed keys are in strictly ascending code-point order, each once |
| TikTokSign.SignedView | x2t/tiktok.py:93 | the part of the dict that signing reads is its unreserved entries |
| TikTokSign.ParamBlockAgree | x2t/tiktok.py:94 | the parameter block reads only the values under the keys it lists |
| TikTokSign.SigningInputDependsOnlyOnSignedView | x2t/tiktok.py:93-100 | dicts with the same unreserved entries give the same signing input |
| TikTokSign.SignOrderIndependent | x2t/tiktok.py:93-101 | the digest does not depend on the order the dict was built in |
| TikTokSign.ReservedKeysIgnored | x2t/tiktok.py:93-101 | setting, adding or deleting `sign` or `access_token` leaves the signing input and the digest unchanged |
| TikTokSign.SignedViewIgnoresReserved | x2t/tiktok.py:93 | setting or deleting a reserved key leaves the signed entries unchanged |
| TikTokSign.BodyOnlyWhenDict | x2t/tiktok.py:96-98 | a non-dict body adds nothing; a dict body's JSON text follows the parameter block |
| TikTokSign.FramedParts | x2t/tiktok.py:100 | the framed string starts with secret and endpoint, ends with the secret, and holds the input data in between |
| TikTokSign.SigningInputFramed | x2t/tiktok.py:100 | the signing input starts with `app_secret + endpoint` and ends with `app_secret` |
| TikTokSign.SigningInputSeparates | x2t/tiktok.py:100 | with the secret fixed, equal signing inputs whose endpoints have equal length (or whose input data agree) have equal endpoints and equal input data |
| TikTokSign.TwoSignKeys | x2t/tiktok.py:93 | two unreserved keys are signed smaller first |
| TikTokSign.TwoKeyBlock | x2t/tiktok.py:94 | two keys give key, value, key, value |
| TikTokSign.DictBodyFramed | x2t/tiktok.py:96-100 | with a dict body the framed data is the parameter block followed by the body's JSON text |
| TikTokSign.ParamBlockSplit | x2t/tiktok.py:94 | the block is the part for the keys before position `i`, then key `i` with its value, then the part for the keys after it |
| TikTokSign.ValueChangeChangesSigningInput | x2t/tiktok.py:93-100 | giving one present unreserved key a value whose `str` differs always changes the signing input |
| TikTokSign.DifferentDataDifferentInput | x2t/tiktok.py:100 | with endpoint and secret fixed, different input data give different signing inputs |
| TikTokSign.ParamBoundaryAmbiguous | x2t/tiktok.py:94-100 | `{"a": "xb", "b": "y"}` and `{"a": "x", "b": "by"}` are different dicts with the same signing input, since the join has no separator |
| TikTokSign.SignExample | x2t/tiktok.py:81-100 | the docstring's call, with its parameters inserted out of order and reserved keys mixed in, signs `mysecret/open_api/v1/resourceparam1value1param2value2` followed by `json.dumps({"key": "value"})` and `mysecret` |
| TikTokCommon.GetCommonParameters | x2t/tiktok.py:104-135 | the headers are exactly `x-tts-access-token` and `Content-Type` with the token and content type; the queries are exactly `app_key` and `timestamp`, the timestamp from the one clock reading |
| TikTokCommon.CommonQueriesKeepTheirTimestamp | x2t/tiktok.py:54-56 | common queries pass through `request_common` with their own timestamp, whatever the clock says later |
| TikTokCommon.CommonBlock | x2t/tiktok.py:93-94 | queries with keys `app_key` and `timestamp` sign as `app_key`, its value, `timestamp`, its value |
| TikTokCommon.CommonQueriesParamBlock | x2t/tiktok.py:93-94 | the common queries sign as `app_key`, the app key, `timestamp`, the timestamp |

## Left out

- The HTTP call `method(url=..., headers=..., json=body)` on line 59 is network I/O. `RequestCommon` returns an `HttpCall` value holding its arguments instead.
- `UrlEncode` models the structure of `urllib.parse.urlencode`: `key=value` pairs joined by `&`. The percent-quoting itself is the `quote` parameter.
- `str()` of a non-string parameter value in `sign` is the `str` parameter.
- `json.dumps(body)` is the `dumps` parameter. Line 97 uses the default separators; the model keeps whatever the encoder returns and does not assume compact output.
- HMAC-SHA256 and the `.encode()` of key and message are the `hmacSha256Hex` parameter. Properties that need the digest to be collision-free, such as "a changed parameter changes the signature", are not stated. What is proved is about the signed string. `ValueChangeChangesSigningInput` shows that giving one signed key a value with different text changes it. `ParamBoundaryAmbiguous` shows that two different dicts can give the same signed string, because line 94 puts no separator between a value and the next key.
- That `sign` is deterministic holds by construction, since `Sign` is a function. No separate lemma states it.
- The wall clock is the `now` parameter. A float timestamp is idealised as a real number, so rounding of the float is not modelled.
- `RequestCommon` does not model raising an exception. A rejected verb returns `Err(ValueError(...))` before anything is built. The message lists four verbs although `get` is accepted too; the model keeps the message text exactly.
- `x2t/exception.py` (`handler`) is not part of this model. It only catches exceptions and logs them.
- `tests/test_exception.py` is not part of this model. It imports a name the package does not define.
- `PyData.Dict` holds `str` values only, which matches the annotation on line 15. A caller dict with other value types is not modelled on the mutable path.
- Dict keys are `string` throughout, so the `TypeError` that `key + str(...)` on line 94 raises for a non-`str` key cannot arise. `Json` has no float case. `PyData.Remove` is `d.pop(k, None)`, not `del d[k]`, so it has no `KeyError` for an absent key; it serves only the statements about deleting reserved keys.
