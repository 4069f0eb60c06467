/**
 * Plain JavaScript objects with string keys (`Record<string, V>`), as the
 * extension uses them for the scanned rows, the `Terms` map and the
 * translation dictionary: an association list in insertion order.
 * Assigning to a key that is already present replaces its value in place and
 * keeps its position; assigning to a new key appends it. This order is what
 * `Object.keys`, `Object.values` and `Object.entries` enumerate.
 */
module Records {
  import opened Wrappers

  type Record<V> = seq<(string, V)>

  /** `k in m` together with `m[k]`. */
  function Lookup<V>(m: Record<V>, k: string): Option<V>
  {
    if m == [] then None
    else if m[0].0 == k then Some(m[0].1)
    else Lookup(m[1..], k)
  }

  /** `Object.keys(m)`. */
  function Keys<V>(m: Record<V>): seq<string>
  {
    if m == [] then [] else [m[0].0] + Keys(m[1..])
  }

  /** No key occurs twice: every record built by assignment has this property. */
  ghost predicate Keyed<V>(m: Record<V>)
  {
    m == [] || (Lookup(m[1..], m[0].0).None? && Keyed(m[1..]))
  }

  /** `m[k] = v`: afterwards `k` maps to `v` and every other key keeps its value. */
  function Put<V>(m: Record<V>, k: string, v: V): (r: Record<V>)
    ensures Lookup(r, k) == Some(v)
    ensures forall k' :: k' != k ==> Lookup(r, k') == Lookup(m, k')
  {
    if m == [] then [(k, v)]
    else if m[0].0 == k then
      var r := [(k, v)] + m[1..];
      assert r[1..] == m[1..];
      r
    else
      var rest := Put(m[1..], k, v);
      var r := [m[0]] + rest;
      assert r[1..] == rest;
      r
  }

  /**
   * Assignment keeps the enumeration order: a key that was present keeps its
   * position, a new key comes last.
   */
  lemma {:induction false} PutKeys<V>(m: Record<V>, k: string, v: V)
    ensures Keys(Put(m, k, v)) == if Lookup(m, k).Some? then Keys(m) else Keys(m) + [k]
  {
    if m != [] && m[0].0 != k {
      var rest := Put(m[1..], k, v);
      PutKeys(m[1..], k, v);
      assert Put(m, k, v) == [m[0]] + rest;
      assert ([m[0]] + rest)[1..] == rest;
    } else if m != [] {
      assert ([(k, v)] + m[1..])[1..] == m[1..];
    }
  }

  /** Keys stay unique under assignment. */
  lemma {:induction false} PutKeyed<V>(m: Record<V>, k: string, v: V)
    requires Keyed(m)
    ensures Keyed(Put(m, k, v))
  {
    if m != [] && m[0].0 != k {
      var rest := Put(m[1..], k, v);
      PutKeyed(m[1..], k, v);
      assert Put(m, k, v) == [m[0]] + rest;
      assert ([m[0]] + rest)[1..] == rest;
    } else if m != [] {
      assert ([(k, v)] + m[1..])[1..] == m[1..];
    }
  }

  /** In a keyed record, looking up the key of an entry gives that entry's value. */
  lemma {:induction false} LookupEntry<V>(m: Record<V>, i: nat)
    requires Keyed(m) && i < |m|
    ensures Lookup(m, m[i].0) == Some(m[i].1)
  {
    if i > 0 {
      LookupEntry(m[1..], i - 1);
      assert m[1..][i - 1] == m[i];
    }
  }

  /** A key that is found belongs to some entry. */
  lemma {:induction false} LookupFound<V>(m: Record<V>, k: string) returns (i: nat)
    requires Lookup(m, k).Some?
    ensures i < |m| && m[i] == (k, Lookup(m, k).value)
  {
    if m[0].0 == k {
      i := 0;
    } else {
      var j := LookupFound(m[1..], k);
      i := j + 1;
    }
  }
}
