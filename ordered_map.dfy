/** A JavaScript `Map` with string keys: a dictionary that also remembers the
    order in which its keys were first set. `set` on a present key replaces the
    value in place, `delete` forgets the key, and iteration (`keys()`,
    `values()`, `for … of`) follows insertion order. Both the calendar's event
    store and the voice command table are such maps. */
module OrderedMaps {
  import opened Wrappers

  ghost predicate NoDuplicates(s: seq<string>) {
    forall i, j :: 0 <= i < j < |s| ==> s[i] != s[j]
  }

  /** `s` without the occurrences of `k`, other keys in their order. */
  function Without(s: seq<string>, k: string): (r: seq<string>)
    ensures forall x :: x in r <==> x in s && x != k
    ensures NoDuplicates(s) ==> NoDuplicates(r)
    ensures k !in s ==> r == s
  {
    if s == [] then []
    else if s[0] == k then Without(s[1..], k)
    else
      var rest := Without(s[1..], k);
      assert NoDuplicates(s) ==> NoDuplicates(s[1..]) && s[0] !in rest;
      [s[0]] + rest
  }

  /** Removing a key from a concatenation removes it from each part, so the
      remaining keys keep their order. */
  lemma {:induction false} WithoutAppend(a: seq<string>, b: seq<string>, k: string)
    ensures Without(a + b, k) == Without(a, k) + Without(b, k)
  {
    if a == [] {
      assert a + b == b;
    } else {
      assert (a + b)[0] == a[0] && (a + b)[1..] == a[1..] + b;
      WithoutAppend(a[1..], b, k);
    }
  }

  /** A key listed once leaves the list one shorter. */
  lemma {:induction false} WithoutOnce(s: seq<string>, k: string)
    requires NoDuplicates(s) && k in s
    ensures |Without(s, k)| == |s| - 1
  {
    if s[0] != k {
      assert NoDuplicates(s[1..]);
      WithoutOnce(s[1..], k);
    }
  }

  datatype OrderedMap<V> = OrderedMap(entries: map<string, V>, keys: seq<string>) {

    /** The keys in order are exactly the keys of the dictionary, each once. */
    ghost predicate Valid() {
      && NoDuplicates(keys)
      && forall k :: k in entries <==> k in keys
    }

    /** `Map.prototype.get`. */
    function Get(k: string): (r: Option<V>)
      ensures r.Some? <==> k in entries
      ensures r.Some? ==> r.value == entries[k]
    {
      if k in entries then Some(entries[k]) else None
    }

    /** `Map.prototype.set`: a new key goes last, a present key keeps its place. */
    function Set(k: string, v: V): (r: OrderedMap<V>)
      requires Valid()
      ensures r.Valid()
      ensures |r.keys| == |keys| + (if k in entries then 0 else 1)
      ensures r.entries == entries[k := v]
      ensures k in entries ==> r.keys == keys
      ensures k !in entries ==> r.keys == keys + [k]
    {
      OrderedMap(entries[k := v], if k in entries then keys else keys + [k])
    }

    /** `Map.prototype.delete`: a no-op on an absent key. */
    function Delete(k: string): (r: OrderedMap<V>)
      requires Valid()
      ensures r.Valid()
      ensures k !in entries ==> r == this
      ensures r.entries == entries - {k}
      ensures r.keys == Without(keys, k)
      ensures k in entries ==> |r.keys| == |keys| - 1
    {
      DeleteKeeps(this, k);
      OrderedMap(entries - {k}, Without(keys, k))
    }

    /** `Array.from(map.values())`: the values in key order. */
    function Values(): (r: seq<V>)
      requires Valid()
      ensures |r| == |keys|
    {
      seq(|keys|, i requires 0 <= i < |keys| => entries[keys[i]])
    }
  }

  /** What `Delete` relies on: dropping a key from both halves keeps the map
      well formed, shortens a present key's list by one and leaves a map
      without the key as it is. */
  lemma DeleteKeeps<V>(m: OrderedMap<V>, k: string)
    requires m.Valid()
    ensures OrderedMap(m.entries - {k}, Without(m.keys, k)).Valid()
    ensures k in m.entries ==> |Without(m.keys, k)| == |m.keys| - 1
    ensures k !in m.entries ==> OrderedMap(m.entries - {k}, Without(m.keys, k)) == m
  {
    if k in m.entries {
      WithoutOnce(m.keys, k);
    } else {
      assert m.entries - {k} == m.entries;
    }
  }

  function Empty<V>(): (r: OrderedMap<V>)
    ensures r.Valid() && r.keys == []
  {
    OrderedMap(map[], [])
  }

  /** A value is listed by Values exactly when some key maps to it. */
  lemma ValuesAreEntries<V>(m: OrderedMap<V>, v: V)
    requires m.Valid()
    ensures v in m.Values() <==> exists k :: k in m.entries && m.entries[k] == v
  {
    var vs := m.Values();
    if v in vs {
      var i :| 0 <= i < |vs| && vs[i] == v;
      assert m.keys[i] in m.entries;
    }
    if exists k :: k in m.entries && m.entries[k] == v {
      var k :| k in m.entries && m.entries[k] == v;
      var i :| 0 <= i < |m.keys| && m.keys[i] == k;
      assert vs[i] == v;
    }
  }
}
