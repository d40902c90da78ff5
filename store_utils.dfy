/** The id-keyed object maps every store slice keeps (`EntityHashMap`), with
    the helpers the reducers use on them: `toObj`, `updateId`, `removeIds`,
    `toArray` and object spread. A JavaScript object lists its array-index
    keys (`"0"`, `"1"`, ...) first, in ascending numeric order, and every
    other key after them in the order it was first added;
    `toArray`/`Object.values` follow that order. The model keeps a key order
    plus a map and maintains first-insertion order, which is the JavaScript
    order for every id that is not an array-index string. */
module StoreUtils {
  import opened Wrappers
  import opened Seqs

  /** An entity's `_id`; `None` stands for JavaScript's `null`. */
  type Id = Option<string>

  /** The property key an `_id` becomes when it indexes an object
      (`obj[null]` is `obj["null"]`). */
  function PropertyKey(id: Id): (k: string)
    ensures id.Some? ==> k == id.value
    ensures id.None? ==> k == "null"
  {
    match id
    case Some(s) => s
    case None => "null"
  }

  datatype KeyedValues<T> = KeyedValues(keys: seq<string>, byId: map<string, T>)

  /** The keys are listed once each, in insertion order, and are exactly
      the keys of the map. */
  ghost predicate Valid<T>(m: KeyedValues<T>) {
    Distinct(m.keys) && (forall k :: k in m.byId <==> k in m.keys)
  }

  type EntityHashMap<T> = m: KeyedValues<T> | Valid(m) witness KeyedValues([], map[])

  function Empty<T>(): (m: EntityHashMap<T>)
    ensures m.byId == map[] && m.keys == []
  {
    KeyedValues([], map[])
  }

  /** `obj[key]`, where an absent key reads as `undefined`. */
  function Lookup<T>(m: EntityHashMap<T>, key: string): (r: Option<T>)
    ensures r.Some? <==> key in m.byId
    ensures r.Some? ==> r.value == m.byId[key]
  {
    if key in m.byId then Some(m.byId[key]) else None
  }

  /** `updateId(m, key, value)`, that is `{ ...m, [key]: value }`: the key
      keeps its position if present and is appended otherwise. */
  function UpdateId<T>(m: EntityHashMap<T>, key: string, value: T): (r: EntityHashMap<T>)
    ensures r.byId == m.byId[key := value]
    ensures r.keys == if key in m.byId then m.keys else m.keys + [key]
  {
    var keys := if key in m.byId then m.keys else m.keys + [key];
    assert Distinct(keys);
    KeyedValues(keys, m.byId[key := value])
  }

  function MergeKeys<T>(a: EntityHashMap<T>, keys: seq<string>, vals: map<string, T>): (r: EntityHashMap<T>)
    requires forall i :: 0 <= i < |keys| ==> keys[i] in vals
    ensures forall k :: k in r.byId <==> k in a.byId || k in keys
    ensures forall k :: k in keys ==> r.byId[k] == vals[k]
    ensures forall k :: k in a.byId && k !in keys ==> r.byId[k] == a.byId[k]
    ensures |r.keys| >= |a.keys| && r.keys[..|a.keys|] == a.keys
    decreases |keys|
  {
    if keys == [] then a
    else
      var k0 := keys[0];
      var a' := UpdateId(a, k0, vals[k0]);
      var r := MergeKeys(a', keys[1..], vals);
      assert forall k :: k in keys <==> k == k0 || k in keys[1..];
      PrefixOfPrefix(r.keys, a'.keys, a.keys);
      r
  }

  lemma PrefixOfPrefix<T>(s: seq<T>, t: seq<T>, u: seq<T>)
    requires |s| >= |t| && s[..|t|] == t && |t| >= |u| && t[..|u|] == u
    ensures |s| >= |u| && s[..|u|] == u
  {
    assert s[..|u|] == s[..|t|][..|u|];
  }

  /** Object spread `{ ...a, ...b }`: every entry of `b` wins, every other
      entry of `a` survives, and `a`'s keys keep their positions. */
  function Merge<T>(a: EntityHashMap<T>, b: EntityHashMap<T>): (r: EntityHashMap<T>)
    ensures r.byId == a.byId + b.byId
    ensures |r.keys| >= |a.keys| && r.keys[..|a.keys|] == a.keys
  {
    assert forall i :: 0 <= i < |b.keys| ==> b.keys[i] in b.byId;
    var r := MergeKeys(a, b.keys, b.byId);
    assert r.byId == a.byId + b.byId by {
      forall k
        ensures k in r.byId <==> k in a.byId + b.byId
      {
        assert k in b.byId <==> k in b.keys;
      }
      forall k | k in r.byId
        ensures r.byId[k] == (a.byId + b.byId)[k]
      {
        assert k in b.byId <==> k in b.keys;
      }
    }
    r
  }

  /** Spreading a one-entry object over `a` updates that entry. */
  lemma MergeSingle<T>(a: EntityHashMap<T>, key: string, value: T)
    ensures Merge(a, UpdateId(Empty(), key, value)).byId == a.byId[key := value]
  {
    var single := UpdateId(Empty(), key, value);
    assert single.byId == map[key := value];
    assert a.byId + map[key := value] == a.byId[key := value];
  }

  /** `toObj(items)`: the items keyed by their id; a later item with the same
      key replaces an earlier one. */
  function ToObj<T>(items: seq<T>, keyOf: T -> string): (r: EntityHashMap<T>)
    ensures forall i :: 0 <= i < |items| ==> keyOf(items[i]) in r.byId
    decreases |items|
  {
    if items == [] then Empty()
    else
      var n := |items| - 1;
      var init := items[..n];
      var prev := ToObj(init, keyOf);
      var r := UpdateId(prev, keyOf(items[n]), items[n]);
      assert forall i :: 0 <= i < |items| ==> keyOf(items[i]) in r.byId by {
        forall i | 0 <= i < |items|
          ensures keyOf(items[i]) in r.byId
        {
          if i < n {
            assert items[i] == init[i];
          }
        }
      }
      r
  }

  /** The last item with a given key is the one `toObj` keeps. */
  lemma {:induction false} ToObjLastWins<T>(items: seq<T>, keyOf: T -> string, i: int)
    requires 0 <= i < |items|
    requires forall j :: i < j < |items| ==> keyOf(items[j]) != keyOf(items[i])
    ensures ToObj(items, keyOf).byId[keyOf(items[i])] == items[i]
  {
    var n := |items| - 1;
    var init := items[..n];
    var key := keyOf(items[i]);
    ToObjStep(items, keyOf);
    if i < n {
      assert keyOf(items[n]) != key;
      assert init[i] == items[i];
      assert ToObj(init, keyOf).byId[key] == items[i] by {
        forall j | i < j < |init|
          ensures keyOf(init[j]) != keyOf(init[i])
        {
          assert init[j] == items[j];
        }
        ToObjLastWins(init, keyOf, i);
      }
    }
  }

  /** `toObj` of one more item updates the item's key. */
  lemma ToObjStep<T>(items: seq<T>, keyOf: T -> string)
    requires items != []
    ensures var n := |items| - 1;
            ToObj(items, keyOf).byId == ToObj(items[..n], keyOf).byId[keyOf(items[n]) := items[n]]
  {
  }

  /** Every key of `toObj(items)` is the key of one of the items. */
  lemma {:induction false} ToObjKeysFromItems<T>(items: seq<T>, keyOf: T -> string, k: string)
    requires k in ToObj(items, keyOf).byId
    ensures exists i :: 0 <= i < |items| && keyOf(items[i]) == k
  {
    var n := |items| - 1;
    var init := items[..n];
    assert ToObj(items, keyOf) == UpdateId(ToObj(init, keyOf), keyOf(items[n]), items[n]);
    if k != keyOf(items[n]) {
      ToObjKeysFromItems(init, keyOf, k);
      var i :| 0 <= i < |init| && keyOf(init[i]) == k;
      assert items[i] == init[i];
    }
  }

  /** `{ ...a, ...toObj(items) }`, the merge every list-response reducer
      does: the keys are `a`'s plus the items', each item key holds the last
      item with that key, and every other entry of `a` is untouched. */
  lemma MergeToObj<T>(a: EntityHashMap<T>, items: seq<T>, keyOf: T -> string)
    ensures forall k :: k in Merge(a, ToObj(items, keyOf)).byId <==>
              k in a.byId || exists i :: 0 <= i < |items| && keyOf(items[i]) == k
    ensures forall k :: k in a.byId && (forall i :: 0 <= i < |items| ==> keyOf(items[i]) != k) ==>
              Merge(a, ToObj(items, keyOf)).byId[k] == a.byId[k]
    ensures forall i :: 0 <= i < |items| && (forall j :: i < j < |items| ==> keyOf(items[j]) != keyOf(items[i])) ==>
              Merge(a, ToObj(items, keyOf)).byId[keyOf(items[i])] == items[i]
  {
    var b := ToObj(items, keyOf);
    forall k | k in b.byId
      ensures exists i :: 0 <= i < |items| && keyOf(items[i]) == k
    {
      ToObjKeysFromItems(items, keyOf, k);
    }
    forall i | 0 <= i < |items| && (forall j :: i < j < |items| ==> keyOf(items[j]) != keyOf(items[i]))
      ensures b.byId[keyOf(items[i])] == items[i]
    {
      ToObjLastWins(items, keyOf, i);
    }
  }

  /** `removeIds(m, ids)`: the entries whose key is listed are dropped; the
      others keep their value and their order. */
  function RemoveIds<T>(m: EntityHashMap<T>, ids: seq<string>): (r: EntityHashMap<T>)
    ensures forall k :: k in r.byId <==> k in m.byId && k !in ids
    ensures forall k :: k in r.byId ==> r.byId[k] == m.byId[k]
    ensures IsSubseq(r.keys, m.keys)
  {
    var keys := Filter(m.keys, k => k !in ids);
    FilterDistinct(m.keys, k => k !in ids);
    FilterIsSubseq(m.keys, k => k !in ids);
    KeyedValues(keys, map k | k in m.byId && k !in ids :: m.byId[k])
  }

  /** Removing one id takes exactly that key out of the map. */
  lemma RemoveIdRemoves<T>(m: EntityHashMap<T>, key: string)
    ensures RemoveIds(m, [key]).byId == m.byId - {key}
  {
    var r := RemoveIds(m, [key]);
    assert forall k :: k in r.byId <==> k in m.byId - {key};
  }

  lemma {:induction false} FilterDistinct<T>(s: seq<T>, p: T -> bool)
    requires Distinct(s)
    ensures Distinct(Filter(s, p))
  {
    if s != [] {
      FilterDistinct(s[1..], p);
      var rest := Filter(s[1..], p);
      assert s[0] !in s[1..];
      assert s[0] !in rest;
    }
  }

  /** `toArray(m)` / `Object.values(m)`: one value per key, in key order. */
  function ToArray<T>(m: EntityHashMap<T>): (r: seq<T>)
    ensures |r| == |m.keys|
    ensures forall i :: 0 <= i < |r| ==> r[i] == m.byId[m.keys[i]]
    ensures forall k :: k in m.byId ==> m.byId[k] in r
  {
    var r := seq(|m.keys|, i requires 0 <= i < |m.keys| => m.byId[m.keys[i]]);
    assert forall k :: k in m.byId ==> exists i :: 0 <= i < |m.keys| && m.keys[i] == k;
    r
  }
}
