/** Python's built-in dict, as far as the recipe builder uses it: keys
    kept in insertion order, lookup, item assignment, `copy` and `update`. */
module PyDict {

  /** No key occurs twice. */
  ghost predicate Distinct<K>(ks: seq<K>) {
    forall i, j :: 0 <= i < j < |ks| ==> ks[i] != ks[j]
  }

  /** A dict value: its keys in insertion order and the value each maps to. */
  datatype Dict<K(==,!new), V> = Dict(keys: seq<K>, vals: map<K, V>)
  {
    /** Every dict the interpreter builds has distinct keys, and exactly the
        keys of the mapping. */
    ghost predicate Valid() {
      && Distinct(keys)
      && (forall k {:trigger k in vals} :: k in vals <==> k in keys)
    }
  }

  /** The literal `{}`. */
  function Empty<K(==,!new), V>(): (d: Dict<K, V>)
    ensures d.Valid() && |d.keys| == 0 && |d.vals| == 0
  {
    Dict([], map[])
  }

  /** `d[k] = v`: a key already present keeps its position and gets the new
      value, a new key is inserted at the end. */
  function Set<K(==,!new), V>(d: Dict<K, V>, k: K, v: V): Dict<K, V>
  {
    if k in d.vals then Dict(d.keys, d.vals[k := v])
    else Dict(d.keys + [k], d.vals[k := v])
  }

  /** The keys of `ks`, in order, that `m` does not hold: the keys an update
      appends at the end. */
  function Unseen<K(==,!new), V>(ks: seq<K>, m: map<K, V>): seq<K>
  {
    if ks == [] then []
    else
      var last := ks[|ks| - 1];
      Unseen(ks[..|ks| - 1], m) + (if last in m then [] else [last])
  }

  /** A key is unseen exactly when `ks` has it and `m` does not. */
  lemma {:induction false} UnseenMembers<K(!new), V>(ks: seq<K>, m: map<K, V>)
    ensures forall k :: k in Unseen(ks, m) <==> k in ks && k !in m
  {
    if ks != [] {
      UnseenMembers(ks[..|ks| - 1], m);
      assert ks == ks[..|ks| - 1] + [ks[|ks| - 1]];
    }
  }

  /** Unseen grows by the last key exactly when that key is unseen: one
      unfolding of `Unseen`, stated apart so that proofs can request it. */
  lemma UnseenLast<K(!new), V>(ks: seq<K>, m: map<K, V>)
    requires ks != []
    ensures Unseen(ks, m) == Unseen(ks[..|ks| - 1], m) + (if ks[|ks| - 1] in m then [] else [ks[|ks| - 1]])
  {
  }

  /** Filtering keeps keys distinct. */
  lemma {:induction false} UnseenDistinct<K(!new), V>(ks: seq<K>, m: map<K, V>)
    requires Distinct(ks)
    ensures Distinct(Unseen(ks, m))
  {
    if ks != [] {
      var init, last := ks[..|ks| - 1], ks[|ks| - 1];
      assert Distinct(init);
      UnseenDistinct(init, m);
      UnseenMembers(init, m);
      assert last !in init;
    }
  }

  /** The items among the first `n` keys of `o`. */
  function Items<K(==,!new), V>(o: Dict<K, V>, n: nat): map<K, V>
    requires o.Valid() && n <= |o.keys|
  {
    if n == 0 then map[]
    else
      var k := o.keys[n - 1];
      Items(o, n - 1)[k := o.vals[k]]
  }

  /** Each item among the first `n` is an item of `o`. */
  lemma {:induction false} ItemsAreItems<K(!new), V>(o: Dict<K, V>, n: nat)
    requires o.Valid() && n <= |o.keys|
    ensures forall k :: k in Items(o, n) ==> k in o.vals && Items(o, n)[k] == o.vals[k]
  {
    if n > 0 {
      ItemsAreItems(o, n - 1);
    }
  }

  /** The first `n` items hold the first `n` keys and no later one. */
  lemma {:induction false} ItemsKeys<K(!new), V>(o: Dict<K, V>, n: nat, j: nat)
    requires o.Valid() && n <= |o.keys| && j < |o.keys|
    ensures o.keys[j] in Items(o, n) <==> j < n
  {
    if n > 0 {
      ItemsKeys(o, n - 1, j);
    }
  }

  /** All the items of `o`, gathered key by key, are `o`'s mapping. */
  lemma ItemsComplete<K(!new), V>(o: Dict<K, V>)
    requires o.Valid()
    ensures Items(o, |o.keys|) == o.vals
  {
    var m := Items(o, |o.keys|);
    ItemsAreItems(o, |o.keys|);
    forall k | k in o.vals
      ensures k in m
    {
      var j :| 0 <= j < |o.keys| && o.keys[j] == k;
      ItemsKeys(o, |o.keys|, j);
    }
  }

  /** Storing into a union stores into its right operand. A proof step only,
      stated over bare maps so the solver meets it without the dicts around it. */
  lemma UnionThenStore<K(!new), V>(a: map<K, V>, b: map<K, V>, k: K, v: V)
    ensures (a + b)[k := v] == a + b[k := v]
  {
  }

  /** The state of `d` once `d.update(o)` has stored the first `n` items of `o`. */
  function UpdatePrefix<K(==,!new), V>(d: Dict<K, V>, o: Dict<K, V>, n: nat): Dict<K, V>
    requires o.Valid() && n <= |o.keys|
  {
    if n == 0 then d
    else Set(UpdatePrefix(d, o, n - 1), o.keys[n - 1], o.vals[o.keys[n - 1]])
  }

  /** After `n` items, the values are those of `d` overridden by the first
      `n` items of `o`. */
  lemma {:induction false} UpdatePrefixValues<K(!new), V>(d: Dict<K, V>, o: Dict<K, V>, n: nat)
    requires o.Valid() && n <= |o.keys|
    ensures UpdatePrefix(d, o, n).vals == d.vals + Items(o, n)
  {
    if n > 0 {
      UpdatePrefixValues(d, o, n - 1);
      var k := o.keys[n - 1];
      UnionThenStore(d.vals, Items(o, n - 1), k, o.vals[k]);
    }
  }

  /** After `n` items, the keys are those of `d` followed by the keys among
      the first `n` of `o` that `d` lacks. */
  lemma {:induction false} UpdatePrefixKeys<K(!new), V>(d: Dict<K, V>, o: Dict<K, V>, n: nat)
    requires o.Valid() && n <= |o.keys|
    ensures UpdatePrefix(d, o, n).keys == d.keys + Unseen(o.keys[..n], d.vals)
  {
    if n > 0 {
      UpdatePrefixKeys(d, o, n - 1);
      UpdatePrefixValues(d, o, n - 1);
      var k := o.keys[n - 1];
      ItemsKeys(o, n - 1, n - 1);
      assert k in UpdatePrefix(d, o, n - 1).vals <==> k in d.vals;
      UnseenLast(o.keys[..n], d.vals);
      assert o.keys[..n][..n - 1] == o.keys[..n - 1];
    }
  }

  /** The result of `d.update(o)`: the items of both dicts, the value from
      `o` wherever both have a key (`+` on maps is right-biased); the keys of
      `d` stay in place and the keys new to `d` follow in `o`'s order. */
  function Updated<K(==,!new), V>(d: Dict<K, V>, o: Dict<K, V>): (r: Dict<K, V>)
    requires d.Valid() && o.Valid()
    ensures r.Valid()
    ensures r.vals == d.vals + o.vals
    ensures r.keys == d.keys + Unseen(o.keys, d.vals)
  {
    UpdatePrefixValues(d, o, |o.keys|);
    UpdatePrefixKeys(d, o, |o.keys|);
    assert o.keys[..|o.keys|] == o.keys;
    ItemsComplete(o);
    var r := UpdatePrefix(d, o, |o.keys|);
    var added := Unseen(o.keys, d.vals);
    UnseenDistinct(o.keys, d.vals);
    UnseenMembers(o.keys, d.vals);
    assert Distinct(r.keys) by {
      forall i, j | 0 <= i < j < |r.keys|
        ensures r.keys[i] != r.keys[j]
      {
        if j >= |d.keys| && i < |d.keys| {
          assert r.keys[j] == added[j - |d.keys|];
          assert r.keys[j] in added;
        }
      }
    }
    r
  }

  /** Nothing is unseen by an empty mapping. */
  lemma {:induction false} UnseenByEmpty<K(!new), V>(ks: seq<K>, m: map<K, V>)
    requires |m| == 0
    ensures Unseen(ks, m) == ks
  {
    if ks != [] {
      UnseenByEmpty(ks[..|ks| - 1], m);
      assert ks == ks[..|ks| - 1] + [ks[|ks| - 1]];
    }
  }

  /** An empty left operand leaves a union equal to its right operand. A proof
      step only, stated over bare maps. */
  lemma UnionWithEmpty<K(!new), V>(a: map<K, V>, b: map<K, V>)
    requires |a| == 0
    ensures a + b == b
  {
    assert a == map[];
  }

  /** Updating an empty dict yields the other dict exactly, key order included. */
  lemma UpdatedEmpty<K(!new), V>(o: Dict<K, V>)
    requires o.Valid()
    ensures Updated(Empty(), o) == o
  {
    var e := Empty<K, V>();
    var r := Updated(e, o);
    UnseenByEmpty(o.keys, e.vals);
    assert r.keys == o.keys;
    UnionWithEmpty(e.vals, o.vals);
  }

  /** A dict object whose contents are changed in place: the dict that
      `copy` returns and `update` then writes into. */
  class MutableDict<K(==,!new), V> {
    var keys: seq<K>
    var vals: map<K, V>

    /** The value the object holds now. */
    function Contents(): Dict<K, V>
      reads this
    {
      Dict(keys, vals)
    }

    /** `d.copy()`: a fresh object holding the items of `d`. */
    constructor Copy(d: Dict<K, V>)
      requires d.Valid()
      ensures Contents() == d
    {
      keys := d.keys;
      vals := d.vals;
    }

    /** `self[k] = v`. */
    method Put(k: K, v: V)
      modifies this
      ensures Contents() == Set(old(Contents()), k, v)
    {
      if k !in vals {
        keys := keys + [k];
      }
      vals := vals[k := v];
    }

    /** `self.update(o)`: stores the items of `o` one by one, in `o`'s order. */
    method Update(o: Dict<K, V>)
      requires Contents().Valid() && o.Valid()
      modifies this
      ensures Contents() == Updated(old(Contents()), o)
    {
      ghost var start := Contents();
      var i := 0;
      while i < |o.keys|
        invariant 0 <= i <= |o.keys|
        invariant Contents() == UpdatePrefix(start, o, i)
      {
        var k := o.keys[i];
        Put(k, o.vals[k]);
        i := i + 1;
      }
      assert o.keys[..|o.keys|] == o.keys;
    }
  }
}
