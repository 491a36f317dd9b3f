/**
 * Python dictionaries keep their keys in insertion order, and several parts of
 * the system expose that order (the registry listing, the data rendering).
 * A dictionary is therefore modelled as a sequence of key/value pairs.
 */
module OrderedDict {
  import opened Wrappers

  /** The keys, in insertion order (`list(d.keys())`). */
  function Keys<K, V>(d: seq<(K, V)>): seq<K> {
    if |d| == 0 then [] else [d[0].0] + Keys(d[1..])
  }

  /** No key occurs twice, as in every Python dict. */
  predicate Unique<K(==), V>(d: seq<(K, V)>) {
    |d| == 0 || (d[0].0 !in Keys(d[1..]) && Unique(d[1..]))
  }

  /** `d.get(k)`: the value stored under `k`, or None. */
  function Get<K(==), V>(d: seq<(K, V)>, k: K): Option<V> {
    if |d| == 0 then None
    else if d[0].0 == k then Some(d[0].1)
    else Get(d[1..], k)
  }

  /** `d.get(k, default)`. */
  function GetOr<K(==), V>(d: seq<(K, V)>, k: K, default: V): V {
    match Get(d, k)
    case Some(v) => v
    case None => default
  }

  /** `d[k] = v`: an existing key keeps its position, a new key goes last. */
  function Set<K(==), V>(d: seq<(K, V)>, k: K, v: V): seq<(K, V)> {
    if |d| == 0 then [(k, v)]
    else if d[0].0 == k then [(k, v)] + d[1..]
    else [d[0]] + Set(d[1..], k, v)
  }

  /** `d.setdefault(k, v)`: stores `v` only when `k` is absent. */
  function SetDefault<K(==), V>(d: seq<(K, V)>, k: K, v: V): seq<(K, V)> {
    if k in Keys(d) then d else Set(d, k, v)
  }

  /** `d.update(e)` and `{**d, **e}`: every entry of `e` is stored in turn. */
  function Update<K(==), V>(d: seq<(K, V)>, e: seq<(K, V)>): seq<(K, V)>
    decreases |e|
  {
    if |e| == 0 then d else Update(Set(d, e[0].0, e[0].1), e[1..])
  }

  /** The entries whose key and value satisfy `keep`, in order (a dict comprehension with a test). */
  function Filter<K, V>(d: seq<(K, V)>, keep: (K, V) -> bool): seq<(K, V)> {
    if |d| == 0 then []
    else if keep(d[0].0, d[0].1) then [d[0]] + Filter(d[1..], keep)
    else Filter(d[1..], keep)
  }

  lemma {:induction false} GetSome<K(!new), V(!new)>(d: seq<(K, V)>, k: K)
    ensures Get(d, k).Some? <==> k in Keys(d)
    ensures Get(d, k).Some? ==> (k, Get(d, k).value) in d
  {
    if |d| > 0 {
      GetSome(d[1..], k);
    }
  }

  lemma {:induction false} SetSpec<K(!new), V(!new)>(d: seq<(K, V)>, k: K, v: V)
    ensures Get(Set(d, k, v), k) == Some(v)
    ensures forall k' :: k' != k ==> Get(Set(d, k, v), k') == Get(d, k')
    ensures Keys(Set(d, k, v)) == if k in Keys(d) then Keys(d) else Keys(d) + [k]
    ensures Unique(d) ==> Unique(Set(d, k, v))
  {
    if |d| == 0 {
    } else if d[0].0 == k {
      assert ([(k, v)] + d[1..])[1..] == d[1..];
    } else {
      var rest := Set(d[1..], k, v);
      SetSpec(d[1..], k, v);
      assert ([d[0]] + rest)[1..] == rest;
    }
  }

  /** The lookups after a `Set`: the key now maps to the value, and every other key is untouched. */
  lemma SetGet<K(!new), V(!new)>(d: seq<(K, V)>, k: K, v: V)
    ensures Get(Set(d, k, v), k) == Some(v)
    ensures forall k' :: k' != k ==> Get(Set(d, k, v), k') == Get(d, k')
  {
    SetSpec(d, k, v);
  }

  /** The keys after a `Set`: a new key is appended, an old one keeps its place. */
  lemma SetKeys<K(!new), V(!new)>(d: seq<(K, V)>, k: K, v: V)
    ensures Keys(Set(d, k, v)) == if k in Keys(d) then Keys(d) else Keys(d) + [k]
  {
    SetSpec(d, k, v);
  }

  lemma {:induction false} UpdateSpec<K(!new), V(!new)>(d: seq<(K, V)>, e: seq<(K, V)>)
    requires Unique(e)
    ensures forall k :: k in Keys(e) ==> Get(Update(d, e), k) == Get(e, k)
    ensures forall k :: k !in Keys(e) ==> Get(Update(d, e), k) == Get(d, k)
    ensures Unique(d) ==> Unique(Update(d, e))
    decreases |e|
  {
    if |e| > 0 {
      SetSpec(d, e[0].0, e[0].1);
      UpdateSpec(Set(d, e[0].0, e[0].1), e[1..]);
      GetSome(e[1..], e[0].0);
    }
  }

  lemma {:induction false} FilterSpec<K(!new), V(!new)>(d: seq<(K, V)>, keep: (K, V) -> bool)
    ensures |Filter(d, keep)| <= |d|
    ensures forall p :: p in Filter(d, keep) <==> p in d && keep(p.0, p.1)
  {
    if |d| > 0 {
      FilterSpec(d[1..], keep);
      assert forall p :: p in d <==> p == d[0] || p in d[1..];
    }
  }

  /** Reading a two-entry dict display. */
  lemma GetDisplay2<K, V>(a: (K, V), b: (K, V), k: K)
    ensures Get([a, b], k) == if a.0 == k then Some(a.1) else if b.0 == k then Some(b.1) else None
  {
    assert [a, b][1..] == [b];
    assert [b][1..] == [];
    assert Get([b], k) == if b.0 == k then Some(b.1) else None;
  }

  /** Reading a three-entry dict display. */
  lemma GetDisplay3<K, V>(a: (K, V), b: (K, V), c: (K, V), k: K)
    ensures Get([a, b, c], k) ==
      if a.0 == k then Some(a.1) else if b.0 == k then Some(b.1) else if c.0 == k then Some(c.1) else None
  {
    assert [a, b, c][1..] == [b, c];
    GetDisplay2(b, c, k);
  }

  /** Reading a four-entry dict display. */
  lemma GetDisplay4<K, V>(a: (K, V), b: (K, V), c: (K, V), e: (K, V), k: K)
    ensures Get([a, b, c, e], k) == if a.0 == k then Some(a.1) else Get([b, c, e], k)
  {
    assert [a, b, c, e][1..] == [b, c, e];
  }

  /** Reading a five-entry dict display. */
  lemma GetDisplay5<K, V>(a: (K, V), b: (K, V), c: (K, V), e: (K, V), f: (K, V), k: K)
    ensures Get([a, b, c, e, f], k) == if a.0 == k then Some(a.1) else Get([b, c, e, f], k)
  {
    assert [a, b, c, e, f][1..] == [b, c, e, f];
  }

  /** `d.update(e)` has the keys of `d` and of `e`, whether or not `e` repeats a key. */
  lemma {:induction false} UpdateKeys<K(!new), V(!new)>(d: seq<(K, V)>, e: seq<(K, V)>, k: K)
    ensures k in Keys(Update(d, e)) <==> k in Keys(d) || k in Keys(e)
    decreases |e|
  {
    if |e| > 0 {
      SetSpec(d, e[0].0, e[0].1);
      UpdateKeys(Set(d, e[0].0, e[0].1), e[1..], k);
    }
  }

  /** `sum(f(v) for v in d.values())`. */
  function SumValues<K, V>(d: seq<(K, V)>, f: V -> int): int {
    if |d| == 0 then 0 else f(d[0].1) + SumValues(d[1..], f)
  }

  /** Storing `v` under `k` trades the old value's share of a sum for the new one's. */
  lemma {:induction false} SetSum<K, V>(d: seq<(K, V)>, k: K, v: V, f: V -> int)
    ensures SumValues(Set(d, k, v), f) ==
      SumValues(d, f) + f(v) - (match Get(d, k) case Some(prev) => f(prev) case None => 0)
  {
    if |d| > 0 && d[0].0 != k {
      SetSum(d[1..], k, v, f);
      assert ([d[0]] + Set(d[1..], k, v))[1..] == Set(d[1..], k, v);
    } else if |d| > 0 {
      assert ([(k, v)] + d[1..])[1..] == d[1..];
    }
  }

  /** The sum over a dict is the sum over all but its last entry, plus that entry. */
  lemma {:induction false} SumValuesLast<K, V>(d: seq<(K, V)>, f: V -> int)
    requires |d| > 0
    ensures SumValues(d, f) == SumValues(d[..|d| - 1], f) + f(d[|d| - 1].1)
  {
    if |d| > 1 {
      SumValuesLast(d[1..], f);
      assert d[1..][..|d[1..]| - 1] == d[..|d| - 1][1..];
    } else {
      assert d[1..] == [] && d[..0] == [];
    }
  }

  /** Filtering a dict is filtering all but its last entry, then testing that entry. */
  lemma {:induction false} FilterLast<K, V>(d: seq<(K, V)>, keep: (K, V) -> bool)
    requires |d| > 0
    ensures Filter(d, keep) == Filter(d[..|d| - 1], keep) + (if keep(d[|d| - 1].0, d[|d| - 1].1) then [d[|d| - 1]] else [])
  {
    if |d| > 1 {
      FilterLast(d[1..], keep);
      assert d[1..][..|d[1..]| - 1] == d[..|d| - 1][1..];
      assert d[..|d| - 1][0] == d[0];
    } else {
      assert d[1..] == [] && d[..0] == [];
    }
  }

  /** `{k: f(v) for k, v in d.items()}`. */
  function MapValues<K, V, W>(d: seq<(K, V)>, f: V -> W): (r: seq<(K, W)>)
    ensures |r| == |d|
  {
    if |d| == 0 then [] else [(d[0].0, f(d[0].1))] + MapValues(d[1..], f)
  }

  lemma {:induction false} GetMapValues<K, V, W>(d: seq<(K, V)>, f: V -> W, k: K)
    ensures Get(MapValues(d, f), k) == if Get(d, k).Some? then Some(f(Get(d, k).value)) else None
  {
    if |d| > 0 {
      GetMapValues(d[1..], f, k);
    }
  }

  lemma {:induction false} SumMapValues<K, V>(d: seq<(K, V)>, f: V -> int)
    ensures SumValues(MapValues(d, f), (n: int) => n) == SumValues(d, f)
  {
    if |d| > 0 {
      SumMapValues(d[1..], f);
    }
  }

  /** In a dict without repeated keys, an entry is what its key reads. */
  lemma {:induction false} GetUnique<K(!new), V(!new)>(d: seq<(K, V)>, k: K, v: V)
    requires Unique(d) && (k, v) in d
    ensures Get(d, k) == Some(v)
  {
    if d[0] != (k, v) {
      GetUnique(d[1..], k, v);
      GetSome(d[1..], k);
    }
  }
}
