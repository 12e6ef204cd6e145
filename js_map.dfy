/**
 * JavaScript's `Map`, as the server classes use it: a dictionary that remembers the order in
 * which its keys were first inserted. `set` on a present key replaces the value and keeps the
 * key's place; `delete` removes the key and keeps the order of the others.
 */
module JsMaps {
  import opened Wrappers

  datatype JsMap<K(==, !new), V> = JsMap(keys: seq<K>, entries: map<K, V>)
  {
    /** Each key once, and exactly the keys that have an entry. */
    ghost predicate Valid() {
      && (forall i, j :: 0 <= i < j < |keys| ==> keys[i] != keys[j])
      && (forall k :: k in entries <==> k in keys)
    }

    /** `map.get(k)`, with `undefined` as None. */
    function Get(k: K): (r: Option<V>)
      ensures r.Some? <==> k in entries
    {
      if k in entries then Some(entries[k]) else None
    }

    /** `map.size`. */
    function Size(): nat {
      |keys|
    }

    /** `map.set(k, v)`. */
    function Set(k: K, v: V): (r: JsMap<K, V>)
      ensures Valid() ==> r.Valid()
      ensures r.Get(k) == Some(v)
      ensures forall k' :: k' != k ==> r.Get(k') == Get(k')
      ensures Valid() && k in entries ==> r.keys == keys
      ensures k !in entries ==> r.keys == keys + [k]
    {
      if k in entries then JsMap(keys, entries[k := v])
      else JsMap(keys + [k], entries[k := v])
    }

    /** `map.delete(k)`. */
    function Delete(k: K): (r: JsMap<K, V>)
      ensures Valid() ==> r.Valid()
      ensures r.Get(k) == None
      ensures forall k' :: k' != k ==> r.Get(k') == Get(k')
      ensures r.keys == Without(keys, k)
    {
      WithoutDistinct(keys, k);
      JsMap(Without(keys, k), entries - {k})
    }

    /** `Array.from(map.values())`: the values in key order. */
    function Values(): (vs: seq<V>)
      ensures Valid() ==> |vs| == |keys| && forall i :: 0 <= i < |keys| ==> vs[i] == entries[keys[i]]
    {
      ValuesOf(keys)
    }

    function ValuesOf(ks: seq<K>): (vs: seq<V>)
      ensures (forall k :: k in ks ==> k in entries) ==>
                |vs| == |ks| && forall i :: 0 <= i < |ks| ==> vs[i] == entries[ks[i]]
    {
      if ks == [] then []
      else (if ks[0] in entries then [entries[ks[0]]] else []) + ValuesOf(ks[1..])
    }
  }

  function Empty<K(==, !new), V>(): (m: JsMap<K, V>)
    ensures m.Valid() && m.Size() == 0
    ensures forall k :: m.Get(k) == None
  {
    JsMap([], map[])
  }

  ghost predicate Distinct<T(!new)>(s: seq<T>) {
    forall i, j :: 0 <= i < j < |s| ==> s[i] != s[j]
  }

  /** `s` with every occurrence of `x` removed, the rest in order. */
  function Without<T(==, !new)>(s: seq<T>, x: T): (r: seq<T>)
    ensures forall y :: y in r <==> y in s && y != x
    ensures |r| <= |s|
    ensures x !in s ==> r == s
  {
    if s == [] then []
    else
      var rest := Without(s[1..], x);
      assert s == [s[0]] + s[1..];
      (if s[0] == x then [] else [s[0]]) + rest
  }

  /** Every other element keeps its count, and `x` has none left. */
  lemma {:induction false} WithoutCount<T(!new)>(s: seq<T>, x: T)
    ensures multiset(Without(s, x)) == multiset(s)[x := 0]
    decreases |s|
  {
    if s != [] {
      WithoutCount(s[1..], x);
      assert s == [s[0]] + s[1..];
    }
  }

  /**
   * `filter` works element by element: filtering a concatenation filters each part and keeps
   * them in order. With `Without([x], x) == []` and `x !in s ==> Without(s, x) == s`, this
   * pins down the result: the other elements, each as often as before, in their old order.
   */
  lemma {:induction false} WithoutAppend<T(!new)>(a: seq<T>, b: seq<T>, x: T)
    ensures Without(a + b, x) == Without(a, x) + Without(b, x)
    decreases |a|
  {
    if a == [] {
      assert a + b == b;
    } else {
      var head := if a[0] == x then [] else [a[0]];
      calc {
        Without(a + b, x);
      == { assert (a + b)[0] == a[0]; assert (a + b)[1..] == a[1..] + b; }
        head + Without(a[1..] + b, x);
      == { WithoutAppend(a[1..], b, x); }
        head + (Without(a[1..], x) + Without(b, x));
      ==
        (head + Without(a[1..], x)) + Without(b, x);
      }
    }
  }

  lemma {:induction false} WithoutDistinct<T(!new)>(s: seq<T>, x: T)
    ensures Distinct(s) ==> Distinct(Without(s, x))
    decreases |s|
  {
    if s != [] && Distinct(s) {
      assert Distinct(s[1..]) by {
        forall i, j | 0 <= i < j < |s| - 1 ensures s[1..][i] != s[1..][j] {
          assert s[1..][i] == s[i + 1] && s[1..][j] == s[j + 1];
        }
      }
      WithoutDistinct(s[1..], x);
      var r := Without(s[1..], x);
      var w := (if s[0] == x then [] else [s[0]]) + r;
      forall i, j | 0 <= i < j < |w| ensures w[i] != w[j] {
        if s[0] != x && i == 0 {
          assert w[j] == r[j - 1];
          assert w[j] in s[1..];
          var t :| 0 <= t < |s[1..]| && s[1..][t] == w[j];
          assert s[t + 1] == w[j];
        }
      }
    }
  }

  // ---------------------------------------------------------------------------
  // A run of `set` calls from an empty map
  // ---------------------------------------------------------------------------

  /** The map after `set(k, v)` for each pair of `kvs`, left to right, from `m`. */
  function SetAll<K(==, !new), V>(m: JsMap<K, V>, kvs: seq<(K, V)>): JsMap<K, V>
    decreases |kvs|
  {
    if kvs == [] then m
    else SetAll(m, kvs[..|kvs| - 1]).Set(kvs[|kvs| - 1].0, kvs[|kvs| - 1].1)
  }

  /** The keys of `kvs`, in order. */
  function KeysOf<K(==, !new), V>(kvs: seq<(K, V)>): (ks: seq<K>)
    ensures |ks| == |kvs| && forall i :: 0 <= i < |kvs| ==> ks[i] == kvs[i].0
    decreases |kvs|
  {
    if kvs == [] then [] else KeysOf(kvs[..|kvs| - 1]) + [kvs[|kvs| - 1].0]
  }

  /** The elements of `ks` in order of first appearance, each once. */
  function FirstOccurrences<K(==, !new)>(ks: seq<K>): (r: seq<K>)
    ensures Distinct(r)
    ensures forall k :: k in r <==> k in ks
    decreases |ks|
  {
    if ks == [] then []
    else
      var init := FirstOccurrences(ks[..|ks| - 1]);
      var k := ks[|ks| - 1];
      assert ks == ks[..|ks| - 1] + [k];
      if k in init then init else init + [k]
  }

  /** The value the last pair with key `k` carries, if there is one. */
  function LastValue<K(==, !new), V>(kvs: seq<(K, V)>, k: K): (r: Option<V>)
    ensures r.None? <==> forall i :: 0 <= i < |kvs| ==> kvs[i].0 != k
    decreases |kvs|
  {
    if kvs == [] then None
    else if kvs[|kvs| - 1].0 == k then Some(kvs[|kvs| - 1].1)
    else
      var r := LastValue(kvs[..|kvs| - 1], k);
      assert r.None? <==> forall i :: 0 <= i < |kvs| ==> kvs[i].0 != k by {
        if r.None? {
          forall i | 0 <= i < |kvs| ensures kvs[i].0 != k {
            if i < |kvs| - 1 { assert kvs[..|kvs| - 1][i] == kvs[i]; }
          }
        } else {
          var i :| 0 <= i < |kvs| - 1 && kvs[..|kvs| - 1][i].0 == k;
          assert kvs[i].0 == k;
        }
      }
      r
  }

  /**
   * After a run of `set` calls on an empty map, the keys are in order of their first `set`,
   * each once, and each key holds the value of its last `set` (last write wins).
   */
  lemma {:induction false} SetAllFromEmpty<K(!new), V>(kvs: seq<(K, V)>)
    ensures var m := SetAll(Empty(), kvs);
            && m.Valid()
            && m.keys == FirstOccurrences(KeysOf(kvs))
            && forall k :: m.Get(k) == LastValue(kvs, k)
    decreases |kvs|
  {
    if kvs != [] {
      var init := kvs[..|kvs| - 1];
      SetAllFromEmpty(init);
      var m0 := SetAll(Empty(), init);
      var (k, v) := kvs[|kvs| - 1];
      assert KeysOf(kvs) == KeysOf(init) + [k];
      assert k in m0.entries <==> k in FirstOccurrences(KeysOf(init));
      forall k' ensures SetAll(Empty(), kvs).Get(k') == LastValue(kvs, k') {
        if k' != k {
          assert LastValue(kvs, k') == LastValue(init, k');
        }
      }
    }
  }
}
