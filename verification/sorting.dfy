/**
 * Python's `sorted(xs, key=...)` and `list.sort`, modelled as an insertion
 * sort over an ordering on the elements. An element is placed before the
 * first element it does not exceed, so equal elements keep their order.
 */
module Sorting {
  import opened Strings

  ghost predicate Total<T(!new)>(le: (T, T) -> bool) {
    forall a, b :: le(a, b) || le(b, a)
  }

  ghost predicate Transitive<T(!new)>(le: (T, T) -> bool) {
    forall a, b, c :: le(a, b) && le(b, c) ==> le(a, c)
  }

  ghost predicate SortedBy<T>(s: seq<T>, le: (T, T) -> bool) {
    forall i, j :: 0 <= i < j < |s| ==> le(s[i], s[j])
  }

  function Insert<T>(x: T, s: seq<T>, le: (T, T) -> bool): seq<T> {
    if |s| == 0 then [x]
    else if le(x, s[0]) then [x] + s
    else [s[0]] + Insert(x, s[1..], le)
  }

  function SortBy<T>(s: seq<T>, le: (T, T) -> bool): seq<T> {
    if |s| == 0 then [] else Insert(s[0], SortBy(s[1..], le), le)
  }

  lemma {:induction false} InsertPermutes<T>(x: T, s: seq<T>, le: (T, T) -> bool)
    ensures multiset(Insert(x, s, le)) == multiset(s) + multiset{x}
  {
    if |s| > 0 && !le(x, s[0]) {
      InsertPermutes(x, s[1..], le);
      assert s == [s[0]] + s[1..];
    }
  }

  lemma {:induction false} InsertSorted<T(!new)>(x: T, s: seq<T>, le: (T, T) -> bool)
    requires Total(le) && Transitive(le)
    requires SortedBy(s, le)
    ensures SortedBy(Insert(x, s, le), le)
  {
    if |s| > 0 {
      if le(x, s[0]) {
        var r := [x] + s;
        forall i, j | 0 <= i < j < |r| ensures le(r[i], r[j]) {
          if i == 0 {
            assert r[j] == s[j - 1];
            if j > 1 { assert le(s[0], s[j - 1]); }
          } else {
            assert r[i] == s[i - 1] && r[j] == s[j - 1];
          }
        }
      } else {
        var rest := Insert(x, s[1..], le);
        InsertSorted(x, s[1..], le);
        InsertPermutes(x, s[1..], le);
        var r := [s[0]] + rest;
        forall i, j | 0 <= i < j < |r| ensures le(r[i], r[j]) {
          if i == 0 {
            assert r[j] == rest[j - 1];
            assert r[j] in multiset(rest);
            assert r[j] == x || r[j] in multiset(s[1..]);
            if r[j] != x {
              var k :| 0 <= k < |s[1..]| && s[1..][k] == r[j];
              assert le(s[0], s[k + 1]);
            }
          } else {
            assert r[i] == rest[i - 1] && r[j] == rest[j - 1];
          }
        }
      }
    }
  }

  /** The sorted output is ordered and is a permutation of the input. */
  lemma {:induction false} SortBySpec<T(!new)>(s: seq<T>, le: (T, T) -> bool)
    requires Total(le) && Transitive(le)
    ensures SortedBy(SortBy(s, le), le)
    ensures multiset(SortBy(s, le)) == multiset(s)
    ensures |SortBy(s, le)| == |s|
  {
    if |s| > 0 {
      SortBySpec(s[1..], le);
      InsertSorted(s[0], SortBy(s[1..], le), le);
      InsertPermutes(s[0], SortBy(s[1..], le), le);
      assert s == [s[0]] + s[1..];
    }
  }

  /** The elements of `s` that satisfy `p`, in their order in `s`. */
  function Keep<T>(s: seq<T>, p: T -> bool): (r: seq<T>)
    ensures |r| <= |s|
  {
    if |s| == 0 then [] else (if p(s[0]) then [s[0]] else []) + Keep(s[1..], p)
  }

  /** The elements that sort as equal to `x`. */
  function EqualTo<T>(le: (T, T) -> bool, x: T): T -> bool {
    (y: T) => le(x, y) && le(y, x)
  }

  /** Inserting `h` leaves the elements equal to `x` in the order they have with `h` in front. */
  lemma {:induction false} InsertKeepsEqual<T(!new)>(h: T, t: seq<T>, le: (T, T) -> bool, x: T)
    requires Transitive(le)
    ensures Keep(Insert(h, t, le), EqualTo(le, x)) == Keep([h] + t, EqualTo(le, x))
  {
    var p := EqualTo(le, x);
    if |t| > 0 && !le(h, t[0]) {
      var t0, u := t[0], t[1..];
      InsertKeepsEqual(h, u, le, x);
      assert !(p(h) && p(t0));
      assert t == [t0] + u;
      KeepCons(t0, Insert(h, u, le), p);
      KeepCons(h, u, p);
      KeepCons(h, t, p);
      KeepCons(t0, u, p);
    }
  }

  /** `Keep` looks at the first element, then at the rest. */
  lemma KeepCons<T>(a: T, s: seq<T>, p: T -> bool)
    ensures Keep([a] + s, p) == (if p(a) then [a] else []) + Keep(s, p)
  {
    assert ([a] + s)[1..] == s;
  }

  /**
   * `sorted` is stable: the elements that sort as equal to any `x` come out
   * in the order they went in.
   */
  lemma {:induction false} SortByStable<T(!new)>(s: seq<T>, le: (T, T) -> bool, x: T)
    requires Transitive(le)
    ensures Keep(SortBy(s, le), EqualTo(le, x)) == Keep(s, EqualTo(le, x))
  {
    if |s| > 0 {
      var p := EqualTo(le, x);
      SortByStable(s[1..], le, x);
      InsertKeepsEqual(s[0], SortBy(s[1..], le), le, x);
      assert ([s[0]] + SortBy(s[1..], le))[1..] == SortBy(s[1..], le);
    }
  }

  /** Python's string order is a total order, so `sorted` over strings is well defined. */
  lemma StrLeIsOrder()
    ensures Total(StrLe) && Transitive(StrLe)
  {
    forall a, b ensures StrLe(a, b) || StrLe(b, a) {
      StrLeTotal(a, b);
    }
    forall a, b, c | StrLe(a, b) && StrLe(b, c) ensures StrLe(a, c) {
      StrLeTransitive(a, b, c);
    }
  }

  /** `sum(f(x) for x in s)`. */
  function SumOf<T>(s: seq<T>, f: T -> real): real {
    if |s| == 0 then 0.0 else f(s[0]) + SumOf(s[1..], f)
  }

  lemma {:induction false} SumOfAppend<T>(a: seq<T>, b: seq<T>, f: T -> real)
    ensures SumOf(a + b, f) == SumOf(a, f) + SumOf(b, f)
  {
    if |a| > 0 {
      assert (a + b)[1..] == a[1..] + b;
      SumOfAppend(a[1..], b, f);
    } else {
      assert a + b == b;
    }
  }

  /** Taking the term at `k` out of a sequence takes one copy of it out of the multiset. */
  lemma RemoveAt<T>(t: seq<T>, k: nat)
    requires k < |t|
    ensures multiset(t[..k] + t[k + 1..]) == multiset(t) - multiset{t[k]}
  {
    assert t == t[..k] + [t[k]] + t[k + 1..];
    assert multiset(t) == multiset(t[..k]) + multiset{t[k]} + multiset(t[k + 1..]);
  }

  /** The sum is the term at `k` plus the sum of the others. */
  lemma SumRemoveAt<T>(t: seq<T>, k: nat, f: T -> real)
    requires k < |t|
    ensures SumOf(t, f) == f(t[k]) + SumOf(t[..k] + t[k + 1..], f)
  {
    assert t == t[..k] + [t[k]] + t[k + 1..];
    SumAround(t[..k], t[k], t[k + 1..], f);
  }

  /** The sum of `a + [x] + b` is `x`'s term plus the sum of `a + b`. */
  lemma SumAround<T>(a: seq<T>, x: T, b: seq<T>, f: T -> real)
    ensures SumOf(a + [x] + b, f) == f(x) + SumOf(a + b, f)
  {
    SumOfAppend(a + [x], b, f);
    SumOfAppend(a, [x], f);
    SumOfAppend(a, b, f);
    assert SumOf([x], f) == f(x) by {
      assert [x][1..] == [];
    }
  }

  /** A sum does not depend on the order of its terms. */
  lemma {:induction false} SumOfPermutation<T>(s: seq<T>, t: seq<T>, f: T -> real)
    requires multiset(s) == multiset(t)
    ensures SumOf(s, f) == SumOf(t, f)
    decreases |s|
  {
    if |s| == 0 {
      assert |t| == |multiset(t)|;
    } else {
      var k := Occurrence(t, s[0]);
      var rest := t[..k] + t[k + 1..];
      RestPermutation(s, t, k);
      SumOfPermutation(s[1..], rest, f);
      SumRemoveAt(t, k, f);
    }
  }

  /** An index at which `x` occurs in `t`. */
  lemma Occurrence<T>(t: seq<T>, x: T) returns (k: nat)
    requires x in multiset(t)
    ensures k < |t| && t[k] == x
  {
    assert x in t;
    k :| 0 <= k < |t| && t[k] == x;
  }

  /** Taking the first term out of `s` and the same term out of its permutation `t` leaves permutations. */
  lemma RestPermutation<T>(s: seq<T>, t: seq<T>, k: nat)
    requires 0 < |s| && k < |t| && t[k] == s[0] && multiset(s) == multiset(t)
    ensures multiset(s[1..]) == multiset(t[..k] + t[k + 1..])
  {
    RemoveAt(t, k);
    var u := s[1..];
    assert s == [s[0]] + u;
    assert multiset(s) == multiset{s[0]} + multiset(u);
  }
}
