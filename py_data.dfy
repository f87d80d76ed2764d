/**
 The Python values the TikTok helpers take and build: dictionaries (kept in
 insertion order, as Python 3.7+ dicts are), a mutable dictionary object for
 the one place where a caller's dict is updated in place, and the
 JSON-serialisable request body.
 */
module PyData {
  import opened Sorting

  datatype Option<T> = None | Some(value: T)

  /** A JSON-serialisable Python value; `JObject` is a `dict` with string keys,
      in insertion order. */
  datatype Json =
    | JNull
    | JBool(b: bool)
    | JInt(i: int)
    | JStr(s: string)
    | JList(elems: seq<Json>)
    | JObject(fields: seq<(string, Json)>)

  /** `str()` of a value that already is a string. */
  function Identity(s: string): string {
    s
  }

  /** A dict's items, in insertion order. */
  type Items<V> = seq<(string, V)>

  /** The dict's keys, in insertion order (`list(d)`). */
  function Keys<V>(items: Items<V>): seq<string> {
    seq(|items|, i requires 0 <= i < |items| => items[i].0)
  }

  /** What every Python dict satisfies: no key occurs twice. */
  predicate DistinctKeys<V>(items: Items<V>) {
    Distinct(Keys(items))
  }

  /** The key-to-value mapping the items describe (`k in d`, `d[k]`). */
  function ToMap<V>(items: Items<V>): (m: map<string, V>)
    ensures forall k :: k in m <==> k in Keys(items)
  {
    if items == [] then map[]
    else
      assert Keys(items) == [items[0].0] + Keys(items[1..]);
      ToMap(items[1..])[items[0].0 := items[0].1]
  }

  /** Looking a key up in a dict yields the value stored with it. */
  lemma {:induction false} ToMapAt<V>(items: Items<V>, i: nat)
    requires DistinctKeys(items) && i < |items|
    ensures items[i].0 in ToMap(items) && ToMap(items)[items[i].0] == items[i].1
  {
    if i > 0 {
      assert Keys(items[1..]) == Keys(items)[1..];
      ToMapAt(items[1..], i - 1);
      assert Keys(items)[0] != Keys(items)[i];
    }
  }

  /** A non-empty dict's first key is not repeated and the rest is a dict. */
  lemma DistinctKeysCons<V>(items: Items<V>)
    requires items != []
    ensures Keys(items) == [items[0].0] + Keys(items[1..])
    ensures DistinctKeys(items) <==> items[0].0 !in Keys(items[1..]) && DistinctKeys(items[1..])
  {
    assert Keys(items) == [items[0].0] + Keys(items[1..]);
    DistinctCons(Keys(items));
  }

  /** `d[k] = v`: an existing key keeps its position and takes the new value;
      a new key is added at the end. */
  function Assign<V>(items: Items<V>, k: string, v: V): Items<V> {
    if items == [] then [(k, v)]
    else if items[0].0 == k then [(k, v)] + items[1..]
    else [items[0]] + Assign(items[1..], k, v)
  }

  /** After `d[k] = v`, `d[k]` is `v` and every other key maps as before. */
  lemma {:induction false} AssignMap<V>(items: Items<V>, k: string, v: V)
    ensures ToMap(Assign(items, k, v)) == ToMap(items)[k := v]
  {
    if items != [] {
      var r := Assign(items, k, v);
      if items[0].0 == k {
        assert r[1..] == items[1..];
      } else {
        AssignMap(items[1..], k, v);
        assert r[1..] == Assign(items[1..], k, v);
      }
    }
  }

  /** `d[k] = v` keeps the key order, appending `k` when it is new. */
  lemma {:induction false} AssignKeys<V>(items: Items<V>, k: string, v: V)
    ensures Keys(Assign(items, k, v)) == if k in Keys(items) then Keys(items) else Keys(items) + [k]
  {
    if items != [] {
      var r := Assign(items, k, v);
      var tail := items[1..];
      assert Keys(items) == [items[0].0] + Keys(tail);
      assert Keys(r) == [r[0].0] + Keys(r[1..]);
      if items[0].0 == k {
        assert r[1..] == tail;
      } else {
        AssignKeys(tail, k, v);
        assert r[1..] == Assign(tail, k, v);
        assert k in Keys(items) <==> k in Keys(tail);
        assert [items[0].0] + (Keys(tail) + [k]) == ([items[0].0] + Keys(tail)) + [k];
      }
    }
  }

  /** Assigning a new key appends the item. */
  lemma {:induction false} AssignAbsent<V>(items: Items<V>, k: string, v: V)
    requires k !in Keys(items)
    ensures Assign(items, k, v) == items + [(k, v)]
  {
    if items != [] {
      assert Keys(items) == [items[0].0] + Keys(items[1..]);
      AssignAbsent(items[1..], k, v);
      assert items == [items[0]] + items[1..];
    }
  }

  /** `d[k] = v` leaves a dict a dict. */
  lemma AssignDistinct<V>(items: Items<V>, k: string, v: V)
    requires DistinctKeys(items)
    ensures DistinctKeys(Assign(items, k, v))
  {
    AssignKeys(items, k, v);
    if k !in Keys(items) {
      DistinctAppend(Keys(items), k);
    }
  }

  /** `d.pop(k, None)`: the dict without `k`, unchanged when `k` is absent. */
  function Remove<V>(items: Items<V>, k: string): Items<V> {
    if items == [] then []
    else if items[0].0 == k then items[1..]
    else [items[0]] + Remove(items[1..], k)
  }

  /** Deleting a key from a dict leaves a dict with no new keys. */
  lemma {:induction false} RemoveDistinct<V>(items: Items<V>, k: string)
    requires DistinctKeys(items)
    ensures DistinctKeys(Remove(items, k))
    ensures forall key :: key in Keys(Remove(items, k)) ==> key in Keys(items)
  {
    if items != [] {
      DistinctKeysCons(items);
      if items[0].0 != k {
        var tail := items[1..];
        RemoveDistinct(tail, k);
        var r := Remove(items, k);
        assert r[1..] == Remove(tail, k);
        DistinctKeysCons(r);
      }
    }
  }

  /** After `d.pop(k, None)` the mapping is the old one without `k`. */
  lemma {:induction false} RemoveMap<V>(items: Items<V>, k: string)
    requires DistinctKeys(items)
    ensures ToMap(Remove(items, k)) == ToMap(items) - {k}
  {
    if items != [] {
      DistinctKeysCons(items);
      var tail := items[1..];
      if items[0].0 == k {
        MapUpdateRemoveAbsent(ToMap(tail), k, items[0].1);
      } else {
        RemoveMap(tail, k);
        var r := Remove(items, k);
        assert r[1..] == Remove(tail, k);
        MapUpdateRemoveOther(ToMap(tail), items[0].0, items[0].1, k);
      }
    }
  }

  lemma MapUpdateRemoveAbsent<V>(m: map<string, V>, k: string, v: V)
    requires k !in m
    ensures m[k := v] - {k} == m
  {
  }

  lemma MapUpdateRemoveOther<V>(m: map<string, V>, a: string, v: V, k: string)
    requires a != k
    ensures m[a := v] - {k} == (m - {k})[a := v]
  {
  }

  /** A Python `dict[str, str]` object that callers hand around by reference. */
  class Dict {
    var items: Items<string>

    ghost predicate Valid()
      reads this
    {
      DistinctKeys(items)
    }

    /** `{}` */
    constructor ()
      ensures Valid() && items == []
    {
      items := [];
    }

    /** Python truthiness: a dict is false exactly when it is empty. */
    predicate IsEmpty()
      reads this
    {
      |items| == 0
    }

    /** `k in d` */
    predicate Contains(k: string)
      reads this
    {
      k in ToMap(items)
    }

    /** `d[k] = v`, updating this object in place. */
    method SetItem(k: string, v: string)
      requires Valid()
      modifies this
      ensures Valid()
      ensures items == Assign(old(items), k, v)
    {
      AssignDistinct(items, k, v);
      items := Assign(items, k, v);
    }
  }
}
