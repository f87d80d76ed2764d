/**
 `sign` from x2t/tiktok.py: the canonical string a TikTok Open API request is
 signed over, and its HMAC-SHA256 digest. The JSON encoder and the keyed
 digest are foreign code and are taken as parameters; everything the source
 itself computes (filtering, sorting, concatenation, framing) is modelled.
 */
module TikTokSign {
  import opened Sorting
  import opened PyData

  /** Keys that never take part in the signature. */
  const ReservedKeys: seq<string> := ["sign", "access_token"]

  /** The keys, in their given order, without the reserved ones. */
  function UnreservedKeys(keys: seq<string>): (r: seq<string>)
    ensures forall k :: k in r <==> k in keys && k !in ReservedKeys
    ensures Distinct(keys) ==> Distinct(r)
  {
    if keys == [] then []
    else
      var rest := UnreservedKeys(keys[1..]);
      assert keys == [keys[0]] + keys[1..];
      DistinctCons(keys);
      if keys[0] in ReservedKeys then rest
      else
        var r := [keys[0]] + rest;
        DistinctCons(r);
        r
  }

  /** `sorted(key for key in params if key not in ["sign", "access_token"])` */
  function SignKeys<V>(params: Items<V>): (keys: seq<string>)
    ensures forall k :: k in keys <==> k in ToMap(params) && k !in ReservedKeys
  {
    var candidates := UnreservedKeys(Keys(params));
    var keys := Sort(candidates);
    assert forall k :: k in keys <==> k in multiset(candidates);
    keys
  }

  /** `"".join(key + str(params[key]) for key in keys)` */
  function ParamBlock<V>(keys: seq<string>, m: map<string, V>, str: V -> string): string
    requires forall k :: k in keys ==> k in m
  {
    if keys == [] then "" else keys[0] + str(m[keys[0]]) + ParamBlock(keys[1..], m, str)
  }

  /** `json.dumps(body)` when `body` is a dict, nothing otherwise. */
  function BodyText(body: Json, dumps: Json -> string): string {
    if body.JObject? then dumps(body) else ""
  }

  /** The string that is signed: the secret, the endpoint, the parameter
      block, the body text, and the secret again. */
  function SigningInput<V>(endpoint: string, params: Items<V>, appSecret: string, body: Json,
                           str: V -> string, dumps: Json -> string): string
  {
    Framed(appSecret, endpoint, InputData(params, body, str, dumps))
  }

  /** The parameter block followed by the body text. */
  function InputData<V>(params: Items<V>, body: Json, str: V -> string, dumps: Json -> string): string {
    ParamBlock(SignKeys(params), ToMap(params), str) + BodyText(body, dumps)
  }

  /** `app_secret + endpoint + input_data + app_secret` */
  function Framed(appSecret: string, endpoint: string, inputData: string): string {
    appSecret + endpoint + inputData + appSecret
  }

  /** `sign`: the hex HMAC-SHA256 digest, keyed by the app secret, of the
      signing input. */
  function Sign<V>(endpoint: string, params: Items<V>, appSecret: string, body: Json,
                   str: V -> string, dumps: Json -> string,
                   hmacSha256Hex: (string, string) -> string): string
  {
    hmacSha256Hex(appSecret, SigningInput(endpoint, params, appSecret, body, str, dumps))
  }

  /** The part of the parameters that the signature covers. */
  function SignedView<V>(params: Items<V>): (view: map<string, V>)
    ensures forall k :: k in view <==> k in ToMap(params) && k !in ReservedKeys
  {
    map k | k in ToMap(params) && k !in ReservedKeys :: ToMap(params)[k]
  }

  /** The signed keys are exactly the unreserved keys of `params`, each once,
      in strictly ascending code-point order. */
  lemma SignKeysAscending<V>(params: Items<V>)
    requires DistinctKeys(params)
    ensures StrictlySorted(SignKeys(params)) && Distinct(SignKeys(params))
    ensures forall k :: k in SignKeys(params) <==> k in ToMap(params) && k !in ReservedKeys
  {
    var candidates := UnreservedKeys(Keys(params));
    DistinctPermutation(candidates, Sort(candidates));
    SortedDistinctIsStrict(Sort(candidates));
  }

  /** The parameter block reads only the values under the keys it lists. */
  lemma {:induction false} ParamBlockAgree<V>(keys: seq<string>, m1: map<string, V>, m2: map<string, V>,
                                              str: V -> string)
    requires forall k :: k in keys ==> k in m1 && k in m2 && m1[k] == m2[k]
    ensures ParamBlock(keys, m1, str) == ParamBlock(keys, m2, str)
  {
    if keys != [] {
      ParamBlockAgree(keys[1..], m1, m2, str);
    }
  }

  /** The signing input depends on `params` only through its unreserved
      entries: neither the order the dict was built in nor anything stored
      under `sign` or `access_token` affects it. */
  lemma SigningInputDependsOnlyOnSignedView<V>(endpoint: string, p1: Items<V>, p2: Items<V>,
                                              appSecret: string, body: Json,
                                              str: V -> string, dumps: Json -> string)
    requires DistinctKeys(p1) && DistinctKeys(p2)
    requires SignedView(p1) == SignedView(p2)
    ensures SigningInput(endpoint, p1, appSecret, body, str, dumps)
         == SigningInput(endpoint, p2, appSecret, body, str, dumps)
  {
    var c1, c2 := UnreservedKeys(Keys(p1)), UnreservedKeys(Keys(p2));
    assert forall k :: k in c1 <==> k in SignedView(p1);
    assert forall k :: k in c2 <==> k in SignedView(p2);
    DistinctSameElements(c1, c2);
    SortPermutationInvariant(c1, c2);
    var keys := SignKeys(p1);
    assert keys == SignKeys(p2);
    forall k | k in keys ensures k in ToMap(p1) && k in ToMap(p2) && ToMap(p1)[k] == ToMap(p2)[k] {
      assert k in SignedView(p1);
    }
    ParamBlockAgree(keys, ToMap(p1), ToMap(p2), str);
  }

  /** The same dict contents, however they were inserted, sign the same. */
  lemma SignOrderIndependent<V>(endpoint: string, p1: Items<V>, p2: Items<V>,
                                appSecret: string, body: Json, str: V -> string,
                                dumps: Json -> string, hmacSha256Hex: (string, string) -> string)
    requires DistinctKeys(p1) && DistinctKeys(p2)
    requires ToMap(p1) == ToMap(p2)
    ensures Sign(endpoint, p1, appSecret, body, str, dumps, hmacSha256Hex)
         == Sign(endpoint, p2, appSecret, body, str, dumps, hmacSha256Hex)
  {
    assert SignedView(p1) == SignedView(p2);
    SigningInputDependsOnlyOnSignedView(endpoint, p1, p2, appSecret, body, str, dumps);
  }

  /** Setting, adding or deleting `sign` or `access_token` changes neither the
      signing input nor the digest. */
  lemma ReservedKeysIgnored<V>(endpoint: string, params: Items<V>, appSecret: string, body: Json,
                               k: string, v: V, str: V -> string, dumps: Json -> string,
                               hmacSha256Hex: (string, string) -> string)
    requires DistinctKeys(params) && k in ReservedKeys
    ensures SigningInput(endpoint, Assign(params, k, v), appSecret, body, str, dumps)
         == SigningInput(endpoint, params, appSecret, body, str, dumps)
    ensures SigningInput(endpoint, Remove(params, k), appSecret, body, str, dumps)
         == SigningInput(endpoint, params, appSecret, body, str, dumps)
    ensures Sign(endpoint, Assign(params, k, v), appSecret, body, str, dumps, hmacSha256Hex)
         == Sign(endpoint, params, appSecret, body, str, dumps, hmacSha256Hex)
    ensures Sign(endpoint, Remove(params, k), appSecret, body, str, dumps, hmacSha256Hex)
         == Sign(endpoint, params, appSecret, body, str, dumps, hmacSha256Hex)
  {
    SignedViewIgnoresReserved(params, k, v);
    SigningInputDependsOnlyOnSignedView(endpoint, Assign(params, k, v), params, appSecret, body, str, dumps);
    SigningInputDependsOnlyOnSignedView(endpoint, Remove(params, k), params, appSecret, body, str, dumps);
  }

  lemma SignedViewIgnoresReserved<V>(params: Items<V>, k: string, v: V)
    requires DistinctKeys(params) && k in ReservedKeys
    ensures DistinctKeys(Assign(params, k, v)) && SignedView(Assign(params, k, v)) == SignedView(params)
    ensures DistinctKeys(Remove(params, k)) && SignedView(Remove(params, k)) == SignedView(params)
  {
    AssignDistinct(params, k, v);
    AssignMap(params, k, v);
    SignedViewOfUpdate(params, Assign(params, k, v), k, v);
    RemoveDistinct(params, k);
    RemoveMap(params, k);
    SignedViewOfRemoval(params, Remove(params, k), k);
  }

  lemma SignedViewOfUpdate<V>(params: Items<V>, updated: Items<V>, k: string, v: V)
    requires k in ReservedKeys && ToMap(updated) == ToMap(params)[k := v]
    ensures SignedView(updated) == SignedView(params)
  {
  }

  lemma SignedViewOfRemoval<V>(params: Items<V>, removed: Items<V>, k: string)
    requires k in ReservedKeys && ToMap(removed) == ToMap(params) - {k}
    ensures SignedView(removed) == SignedView(params)
  {
  }

  /** A body that is not a dict (including `None`) adds nothing to the input
      data; a dict body's JSON text follows the parameter block. */
  lemma BodyOnlyWhenDict<V>(params: Items<V>, body: Json, str: V -> string, dumps: Json -> string)
    ensures !body.JObject? ==> InputData(params, body, str, dumps) == InputData(params, JNull, str, dumps)
    ensures body.JObject? ==> InputData(params, body, str, dumps) == InputData(params, JNull, str, dumps) + dumps(body)
  {
    var block := ParamBlock(SignKeys(params), ToMap(params), str);
    assert block + "" == block;
  }

  /** The framed string opens with the secret and the endpoint, closes with
      the secret, and determines the endpoint and the data it frames. */
  lemma {:induction false} FramedParts(appSecret: string, endpoint: string, inputData: string)
    ensures var s := Framed(appSecret, endpoint, inputData);
      && |s| == 2 * |appSecret| + |endpoint| + |inputData|
      && s[..|appSecret| + |endpoint|] == appSecret + endpoint
      && s[|appSecret|..|appSecret| + |endpoint|] == endpoint
      && s[|appSecret| + |endpoint|..|s| - |appSecret|] == inputData
      && s[|s| - |appSecret|..] == appSecret
  {
    var s := Framed(appSecret, endpoint, inputData);
    var a, e, d := |appSecret|, |endpoint|, |inputData|;
    assert forall i :: 0 <= i < a ==> s[i] == appSecret[i];
    assert forall i :: a <= i < a + e ==> s[i] == endpoint[i - a];
    assert forall i :: a + e <= i < a + e + d ==> s[i] == inputData[i - a - e];
    assert forall i :: a + e + d <= i < |s| ==> s[i] == appSecret[i - a - e - d];
  }

  /** The signing input opens with the secret and the endpoint and closes
      with the secret; the parameter block and body text sit in between. */
  lemma SigningInputFramed<V>(endpoint: string, params: Items<V>, appSecret: string, body: Json,
                              str: V -> string, dumps: Json -> string)
    ensures var s := SigningInput(endpoint, params, appSecret, body, str, dumps);
      && |s| >= 2 * |appSecret| + |endpoint|
      && s[..|appSecret| + |endpoint|] == appSecret + endpoint
      && s[|appSecret| + |endpoint|..|s| - |appSecret|] == InputData(params, body, str, dumps)
      && s[|s| - |appSecret|..] == appSecret
  {
    FramedParts(appSecret, endpoint, InputData(params, body, str, dumps));
  }

  /** With the secret fixed, equal signing inputs have equal endpoints and
      equal input data; in particular a different endpoint, parameter block
      or body text gives a different signing input. */
  lemma SigningInputSeparates<V>(e1: string, p1: Items<V>, b1: Json, e2: string, p2: Items<V>, b2: Json,
                                 appSecret: string, str: V -> string, dumps: Json -> string)
    requires |e1| == |e2| || InputData(p1, b1, str, dumps) == InputData(p2, b2, str, dumps)
    requires SigningInput(e1, p1, appSecret, b1, str, dumps) == SigningInput(e2, p2, appSecret, b2, str, dumps)
    ensures e1 == e2 && InputData(p1, b1, str, dumps) == InputData(p2, b2, str, dumps)
  {
    FramedParts(appSecret, e1, InputData(p1, b1, str, dumps));
    FramedParts(appSecret, e2, InputData(p2, b2, str, dumps));
  }

  /** Line 94 joins keys and values with no separator, so where one value
      ends and the next key begins is not recorded: `{"a": "xb", "b": "y"}`
      and `{"a": "x", "b": "by"}` give the same signing input. */
  lemma ParamBoundaryAmbiguous(endpoint: string, appSecret: string, body: Json, dumps: Json -> string)
    ensures ToMap([("a", "xb"), ("b", "y")]) != ToMap([("a", "x"), ("b", "by")])
    ensures SigningInput(endpoint, [("a", "xb"), ("b", "y")], appSecret, body, Identity, dumps)
         == SigningInput(endpoint, [("a", "x"), ("b", "by")], appSecret, body, Identity, dumps)
  {
    var p1, p2 := [("a", "xb"), ("b", "y")], [("a", "x"), ("b", "by")];
    AmbiguousBlocks(p1, p2);
    SameBlockSameInput(endpoint, p1, p2, appSecret, body, Identity, dumps);
  }

  lemma AmbiguousBlocks(p1: Items<string>, p2: Items<string>)
    requires p1 == [("a", "xb"), ("b", "y")] && p2 == [("a", "x"), ("b", "by")]
    ensures ToMap(p1) != ToMap(p2)
    ensures ParamBlock(SignKeys(p1), ToMap(p1), Identity) == ParamBlock(SignKeys(p2), ToMap(p2), Identity)
  {
    assert Less("a", "b");
    TwoEntryBlock(p1, "a", "xb", "b", "y");
    TwoEntryBlock(p2, "a", "x", "b", "by");
    BoundaryStrings();
    ToMapAt(p1, 0);
    ToMapAt(p2, 0);
    assert ToMap(p1)["a"] != ToMap(p2)["a"];
  }

  lemma BoundaryStrings()
    ensures "a" + "xb" + ("b" + "y" + "") == "a" + "x" + ("b" + "by" + "")
  {
    assert "a" + "xb" + ("b" + "y" + "") == "axbby";
    assert "a" + "x" + ("b" + "by" + "") == "axbby";
  }

  /** Dicts with the same parameter block have the same signing input. */
  lemma SameBlockSameInput<V>(endpoint: string, p1: Items<V>, p2: Items<V>, appSecret: string, body: Json,
                              str: V -> string, dumps: Json -> string)
    requires ParamBlock(SignKeys(p1), ToMap(p1), str) == ParamBlock(SignKeys(p2), ToMap(p2), str)
    ensures SigningInput(endpoint, p1, appSecret, body, str, dumps)
         == SigningInput(endpoint, p2, appSecret, body, str, dumps)
  {
  }

  /** The block of a two-entry dict whose keys are unreserved and ascending. */
  lemma TwoEntryBlock(p: Items<string>, a: string, u: string, b: string, w: string)
    requires p == [(a, u), (b, w)] && Less(a, b) && a !in ReservedKeys && b !in ReservedKeys
    ensures DistinctKeys(p)
    ensures ParamBlock(SignKeys(p), ToMap(p), Identity) == a + u + (b + w + "")
  {
    LessIrreflexive(a);
    var ks := Keys(p);
    assert ks == [a, b] && ks[1..] == [b] && ks[1..][1..] == [];
    assert UnreservedKeys(ks[1..]) == [b];
    ToMapAt(p, 0);
    ToMapAt(p, 1);
    TwoSignKeys(p, a, b);
    TwoKeyBlock(a, b, ToMap(p), Identity);
  }

  /** The block splits around any position: the keys before it, the key
      there with its value, and the keys after it. */
  lemma {:induction false} ParamBlockSplit<V>(keys: seq<string>, m: map<string, V>, str: V -> string, i: nat)
    requires forall k :: k in keys ==> k in m
    requires i < |keys|
    ensures ParamBlock(keys, m, str)
         == ParamBlock(keys[..i], m, str) + (keys[i] + str(m[keys[i]])) + ParamBlock(keys[i + 1..], m, str)
  {
    if i > 0 {
      ParamBlockSplit(keys[1..], m, str, i - 1);
      assert keys[1..][..i - 1] == keys[..i][1..];
      assert keys[1..][i..] == keys[i + 1..];
    } else {
      assert keys[..0] == [];
    }
  }

  /** Strings with equal outer parts and different middles differ. */
  lemma MiddleDiffers(x: string, s1: string, s2: string, y: string)
    requires s1 != s2
    ensures x + s1 + y != x + s2 + y
  {
    if |s1| == |s2| {
      assert (x + s1 + y)[|x|..|x| + |s1|] == s1;
      assert (x + s2 + y)[|x|..|x| + |s2|] == s2;
    }
  }

  /** Giving one signed parameter a value whose text differs changes the
      signing input: every other part of the block stays where it was. */
  lemma ValueChangeChangesSigningInput<V>(endpoint: string, params: Items<V>, k: string, v: V,
                                          appSecret: string, body: Json,
                                          str: V -> string, dumps: Json -> string)
    requires DistinctKeys(params) && k in ToMap(params) && k !in ReservedKeys
    requires str(v) != str(ToMap(params)[k])
    ensures SigningInput(endpoint, Assign(params, k, v), appSecret, body, str, dumps)
         != SigningInput(endpoint, params, appSecret, body, str, dumps)
  {
    var updated := Assign(params, k, v);
    var block1 := ParamBlock(SignKeys(updated), ToMap(updated), str);
    var block2 := ParamBlock(SignKeys(params), ToMap(params), str);
    ValueChangeChangesBlock(params, k, v, str);
    AppendKeepsDifference(block1, block2, BodyText(body, dumps));
    DifferentDataDifferentInput(endpoint, updated, params, appSecret, body, str, dumps);
  }

  lemma AppendKeepsDifference(s1: string, s2: string, tail: string)
    requires s1 != s2
    ensures s1 + tail != s2 + tail
  {
    if |s1| == |s2| {
      assert (s1 + tail)[..|s1|] == s1 && (s2 + tail)[..|s2|] == s2;
    }
  }

  /** With the endpoint and the secret fixed, different input data give
      different signing inputs. */
  lemma DifferentDataDifferentInput<V>(endpoint: string, p1: Items<V>, p2: Items<V>, appSecret: string,
                                       body: Json, str: V -> string, dumps: Json -> string)
    requires InputData(p1, body, str, dumps) != InputData(p2, body, str, dumps)
    ensures SigningInput(endpoint, p1, appSecret, body, str, dumps)
         != SigningInput(endpoint, p2, appSecret, body, str, dumps)
  {
    FramedParts(appSecret, endpoint, InputData(p1, body, str, dumps));
    FramedParts(appSecret, endpoint, InputData(p2, body, str, dumps));
  }

  lemma ValueChangeChangesBlock<V>(params: Items<V>, k: string, v: V, str: V -> string)
    requires DistinctKeys(params) && k in ToMap(params) && k !in ReservedKeys
    requires str(v) != str(ToMap(params)[k])
    ensures ParamBlock(SignKeys(Assign(params, k, v)), ToMap(Assign(params, k, v)), str)
         != ParamBlock(SignKeys(params), ToMap(params), str)
  {
    AssignedKeySameSignKeys(params, k, v);
    var keys := SignKeys(params);
    SignKeysAscending(params);
    var i :| 0 <= i < |keys| && keys[i] == k;
    var x, y := BlockAroundKey(keys, ToMap(params), i, v, str);
    MiddleDiffers(x, str(v), str(ToMap(params)[k]), y);
  }

  /** Assigning to a key already present keeps the signed keys. */
  lemma AssignedKeySameSignKeys<V>(params: Items<V>, k: string, v: V)
    requires k in ToMap(params)
    ensures SignKeys(Assign(params, k, v)) == SignKeys(params)
    ensures ToMap(Assign(params, k, v)) == ToMap(params)[k := v]
  {
    AssignKeys(params, k, v);
    AssignMap(params, k, v);
  }

  /** Changing the value under the `i`-th of distinct keys changes only the
      middle of the block. */
  lemma BlockAroundKey<V>(keys: seq<string>, m: map<string, V>, i: nat, v: V, str: V -> string)
    returns (x: string, y: string)
    requires Distinct(keys) && i < |keys| && forall k :: k in keys ==> k in m
    ensures ParamBlock(keys, m, str) == x + str(m[keys[i]]) + y
    ensures ParamBlock(keys, m[keys[i] := v], str) == x + str(v) + y
  {
    var k := keys[i];
    var m2 := m[k := v];
    ParamBlockSplit(keys, m, str, i);
    ParamBlockSplit(keys, m2, str, i);
    forall key | key in keys[..i] ensures key in m && key in m2 && m[key] == m2[key] {
      var j :| 0 <= j < i && keys[j] == key;
    }
    forall key | key in keys[i + 1..] ensures key in m && key in m2 && m[key] == m2[key] {
      var j :| i + 1 <= j < |keys| && keys[j] == key;
    }
    ParamBlockAgree(keys[..i], m, m2, str);
    ParamBlockAgree(keys[i + 1..], m, m2, str);
    x := ParamBlock(keys[..i], m, str) + k;
    y := ParamBlock(keys[i + 1..], m, str);
  }

  /** With exactly two unreserved keys `a < b`, signing lists `a` then `b`,
      whatever order the dict holds them in. */
  lemma TwoSignKeys<V>(params: Items<V>, a: string, b: string)
    requires Less(a, b)
    requires UnreservedKeys(Keys(params)) == [a, b] || UnreservedKeys(Keys(params)) == [b, a]
    ensures SignKeys(params) == [a, b]
  {
    SortTwo(a, b);
  }

  /** The block of two keys is each key followed by its value. */
  lemma TwoKeyBlock<V>(a: string, b: string, m: map<string, V>, str: V -> string)
    requires a in m && b in m
    ensures ParamBlock([a, b], m, str) == a + str(m[a]) + (b + str(m[b]) + "")
  {
    assert [a, b][1..] == [b] && [b][1..] == [];
    assert ParamBlock([b], m, str) == b + str(m[b]) + ParamBlock([], m, str);
  }

  /** A dict body's JSON text follows the parameter block inside the frame. */
  lemma DictBodyFramed<V>(endpoint: string, params: Items<V>, appSecret: string, body: Json,
                          str: V -> string, dumps: Json -> string, block: string)
    requires body.JObject? && ParamBlock(SignKeys(params), ToMap(params), str) == block
    ensures SigningInput(endpoint, params, appSecret, body, str, dumps)
         == Framed(appSecret, endpoint, block + dumps(body))
  {
  }

  /** The docstring's call, with its parameters inserted out of order and
      reserved keys mixed in: the block lists `param1` before `param2`,
      leaves out `sign` and `access_token`, and is followed by the JSON text
      of the body. */
  lemma SignExample(body: Json, dumps: Json -> string)
    requires body == JObject([("key", JStr("value"))])
    ensures SigningInput("/open_api/v1/resource",
                         [("param2", "value2"), ("sign", "stale"), ("param1", "value1"), ("access_token", "abc123")],
                         "mysecret", body, Identity, dumps)
         == Framed("mysecret", "/open_api/v1/resource", "param1" + "value1" + "param2" + "value2" + dumps(body))
  {
    var given := [("param2", "value2"), ("sign", "stale"), ("param1", "value1"), ("access_token", "abc123")];
    ExampleBlock(given);
    DictBodyFramed("/open_api/v1/resource", given, "mysecret", body, Identity, dumps,
                   "param1" + "value1" + "param2" + "value2");
  }

  lemma ExampleBlock(given: Items<string>)
    requires given == [("param2", "value2"), ("sign", "stale"), ("param1", "value1"), ("access_token", "abc123")]
    ensures ParamBlock(SignKeys(given), ToMap(given), Identity) == "param1" + "value1" + "param2" + "value2"
  {
    ExampleFacts(given);
    BlockOfFacts(given, "param1", "value1", "param2", "value2");
  }

  lemma BlockOfFacts(p: Items<string>, a: string, u: string, b: string, w: string)
    requires Less(a, b) && UnreservedKeys(Keys(p)) == [b, a]
    requires a in ToMap(p) && b in ToMap(p) && ToMap(p)[a] == u && ToMap(p)[b] == w
    ensures ParamBlock(SignKeys(p), ToMap(p), Identity) == a + u + b + w
  {
    TwoSignKeys(p, a, b);
    TwoKeyBlock(a, b, ToMap(p), Identity);
    assert b + w + "" == b + w;
  }

  lemma ExampleFacts(given: Items<string>)
    requires given == [("param2", "value2"), ("sign", "stale"), ("param1", "value1"), ("access_token", "abc123")]
    ensures Less("param1", "param2")
    ensures UnreservedKeys(Keys(given)) == ["param2", "param1"]
    ensures "param1" in ToMap(given) && "param2" in ToMap(given)
    ensures ToMap(given)["param1"] == "value1" && ToMap(given)["param2"] == "value2"
  {
    assert Less("param1", "param2");
    var ks := Keys(given);
    assert ks == ["param2", "sign", "param1", "access_token"];
    UnreservedKeysOfFour(ks);
    ExampleLookups(given);
  }

  lemma UnreservedKeysOfFour(ks: seq<string>)
    requires ks == ["param2", "sign", "param1", "access_token"]
    ensures UnreservedKeys(ks) == ["param2", "param1"]
  {
    assert ks[1..] == ["sign", "param1", "access_token"];
    assert ks[1..][1..] == ["param1", "access_token"];
    assert ks[1..][1..][1..] == ["access_token"];
    assert ks[1..][1..][1..][1..] == [];
    assert UnreservedKeys(ks[1..][1..][1..]) == [];
    assert UnreservedKeys(ks[1..][1..]) == ["param1"];
  }

  lemma ExampleLookups(given: Items<string>)
    requires given == [("param2", "value2"), ("sign", "stale"), ("param1", "value1"), ("access_token", "abc123")]
    ensures "param1" in ToMap(given) && "param2" in ToMap(given)
    ensures ToMap(given)["param1"] == "value1" && ToMap(given)["param2"] == "value2"
  {
    assert given[1..][1..] == [("param1", "value1"), ("access_token", "abc123")];
    var inner := ToMap(given[1..][1..]);
    assert inner["param1"] == "value1";
    assert ToMap(given[1..])["param1"] == "value1";
  }

}
