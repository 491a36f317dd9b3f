/**
 * The handful of Python `str` operations the system relies on, over
 * `seq<char>`: substring search (`find`/`rfind`), `join`, single-character
 * `replace`, ASCII case mapping, `title`, and decimal `int`/`str` conversion.
 */
module Strings {
  import opened Wrappers

  /** `sub` occurs in `s` starting at offset `i`. */
  predicate OccursAt(s: string, sub: string, i: int) {
    0 <= i && i + |sub| <= |s| && s[i..i + |sub|] == sub
  }

  /** `sub in s`. */
  predicate Contains(s: string, sub: string) {
    exists i | 0 <= i <= |s| :: OccursAt(s, sub, i)
  }

  /** The last occurrence of `sub` at an offset no greater than `i`. */
  function LastIndexAtMost(s: string, sub: string, i: int): (r: Option<nat>)
    ensures r.Some? ==> r.value <= i && OccursAt(s, sub, r.value)
    decreases i + 1
  {
    if i < 0 then None
    else if OccursAt(s, sub, i) then Some(i)
    else LastIndexAtMost(s, sub, i - 1)
  }

  /** `s.rfind(sub)`, with None standing for Python's -1. */
  function LastIndexOf(s: string, sub: string): (r: Option<nat>)
    ensures r.Some? ==> OccursAt(s, sub, r.value)
  {
    LastIndexAtMost(s, sub, |s| - |sub|)
  }

  lemma {:induction false} LastIndexAtMostIsLast(s: string, sub: string, i: int)
    ensures var r := LastIndexAtMost(s, sub, i);
      && (r.Some? ==> forall j :: r.value < j <= i ==> !OccursAt(s, sub, j))
      && (r.None? ==> forall j :: j <= i ==> !OccursAt(s, sub, j))
    decreases i + 1
  {
    if i >= 0 && !OccursAt(s, sub, i) {
      LastIndexAtMostIsLast(s, sub, i - 1);
    }
  }

  /** `rfind` finds the last occurrence, and fails exactly when there is none. */
  lemma LastIndexOfIsLast(s: string, sub: string)
    ensures var r := LastIndexOf(s, sub);
      && (r.Some? ==> forall j :: r.value < j ==> !OccursAt(s, sub, j))
      && (r.None? <==> !Contains(s, sub))
  {
    LastIndexAtMostIsLast(s, sub, |s| - |sub|);
  }

  /** The first occurrence of `sub` at an offset no smaller than `i`. */
  function IndexAtLeast(s: string, sub: string, i: nat): (r: Option<nat>)
    ensures r.Some? ==> i <= r.value && OccursAt(s, sub, r.value)
    decreases |s| - i
  {
    if i + |sub| > |s| then None
    else if OccursAt(s, sub, i) then Some(i)
    else IndexAtLeast(s, sub, i + 1)
  }

  /** `s.find(sub)`, with None standing for Python's -1. */
  function IndexOf(s: string, sub: string): (r: Option<nat>)
    ensures r.Some? ==> OccursAt(s, sub, r.value)
  {
    IndexAtLeast(s, sub, 0)
  }

  lemma {:induction false} IndexAtLeastIsFirst(s: string, sub: string, i: nat)
    ensures var r := IndexAtLeast(s, sub, i);
      && (r.Some? ==> forall j :: i <= j < r.value ==> !OccursAt(s, sub, j))
      && (r.None? ==> forall j :: i <= j ==> !OccursAt(s, sub, j))
    decreases |s| - i
  {
    if i + |sub| <= |s| && !OccursAt(s, sub, i) {
      IndexAtLeastIsFirst(s, sub, i + 1);
    }
  }

  /** `find` finds the first occurrence, and fails exactly when there is none. */
  lemma IndexOfIsFirst(s: string, sub: string)
    ensures var r := IndexOf(s, sub);
      && (r.Some? ==> forall j :: j < r.value ==> !OccursAt(s, sub, j))
      && (r.None? <==> !Contains(s, sub))
  {
    IndexAtLeastIsFirst(s, sub, 0);
  }

  /** A one-character string occurs exactly where that character is. */
  lemma OccursChar(s: string, c: char, j: int)
    ensures OccursAt(s, [c], j) <==> 0 <= j < |s| && s[j] == c
  {
    if OccursAt(s, [c], j) {
      assert s[j + 0] == [c][0];
    }
    if 0 <= j < |s| && s[j] == c {
      forall k | 0 <= k < 1 ensures s[j + k] == [c][k] {
      }
    }
  }

  /** `b` occurs in `a + b + c` right after `a`. */
  lemma OccursMiddle(a: string, b: string, c: string)
    ensures OccursAt(a + b + c, b, |a|)
  {
    forall j | 0 <= j < |b| ensures (a + b + c)[|a| + j] == b[j] {
    }
  }

  /** An occurrence inside an occurrence. */
  lemma OccursTrans(x: string, y: string, z: string, o1: int, o2: int)
    requires OccursAt(x, y, o1) && OccursAt(y, z, o2)
    ensures OccursAt(x, z, o1 + o2)
  {
    forall j | 0 <= j < |z| ensures x[o1 + o2 + j] == z[j] {
      assert y[o2 + j] == z[j];
      assert x[o1 + (o2 + j)] == y[o2 + j];
    }
  }

  /** An occurrence inside a slice is an occurrence in the whole string, shifted by the slice's start. */
  lemma OccursInSlice(s: string, lo: int, hi: int, sub: string, p: int)
    requires 0 <= lo <= hi <= |s| && OccursAt(s[lo..hi], sub, p)
    ensures OccursAt(s, sub, lo + p)
  {
    var w := s[lo..hi];
    forall j | 0 <= j < |sub| ensures s[lo + p + j] == sub[j] {
      assert w[p..p + |sub|][j] == sub[j];
    }
    assert s[lo + p..lo + p + |sub|] == sub;
  }

  /** A slice contains each character it covers. */
  lemma SliceContainsChar(s: string, lo: int, hi: int, x: int)
    requires 0 <= lo <= x < hi <= |s|
    ensures Contains(s[lo..hi], [s[x]])
  {
    var c := s[lo..hi];
    assert c[x - lo..x - lo + 1] == [s[x]];
    assert OccursAt(c, [s[x]], x - lo);
  }

  /** `sep.join(parts)`. */
  function Join(parts: seq<string>, sep: string): string {
    if |parts| == 0 then ""
    else if |parts| == 1 then parts[0]
    else parts[0] + sep + Join(parts[1..], sep)
  }

  /** `s.replace(c, rep)` for a one-character pattern. */
  function ReplaceChar(s: string, c: char, rep: string): string {
    if |s| == 0 then ""
    else (if s[0] == c then rep else [s[0]]) + ReplaceChar(s[1..], c, rep)
  }

  /** Number of positions of `s` holding `c`. */
  function Count(s: string, c: char): nat {
    if |s| == 0 then 0 else (if s[0] == c then 1 else 0) + Count(s[1..], c)
  }

  predicate StartsWith(s: string, prefix: string) {
    |prefix| <= |s| && s[..|prefix|] == prefix
  }

  predicate EndsWith(s: string, suffix: string) {
    |suffix| <= |s| && s[|s| - |suffix|..] == suffix
  }

  predicate IsUpper(c: char) { 'A' <= c <= 'Z' }
  predicate IsLower(c: char) { 'a' <= c <= 'z' }

  /** A cased character in the sense of `str.title` (ASCII letters only). */
  predicate IsLetter(c: char) { IsUpper(c) || IsLower(c) }

  function LowerChar(c: char): char {
    if IsUpper(c) then (c as int - 'A' as int + 'a' as int) as char else c
  }

  function UpperChar(c: char): char {
    if IsLower(c) then (c as int - 'a' as int + 'A' as int) as char else c
  }

  /** `s.lower()` on ASCII letters. */
  function Lower(s: string): (r: string)
    ensures |r| == |s|
    ensures forall i :: 0 <= i < |s| ==> r[i] == LowerChar(s[i])
  {
    seq(|s|, i requires 0 <= i < |s| => LowerChar(s[i]))
  }

  /**
   * `s.title()` on ASCII: a letter right after a letter is lower-cased, any
   * other character is upper-cased (which leaves non-letters unchanged).
   */
  function Title(s: string): string {
    seq(|s|, i requires 0 <= i < |s| =>
      if i > 0 && IsLetter(s[i - 1]) then LowerChar(s[i]) else UpperChar(s[i]))
  }

  predicate IsDigit(c: char) { '0' <= c <= '9' }

  function DigitChar(d: nat): char
    requires d < 10
  {
    ('0' as int + d) as char
  }

  function DigitValue(c: char): nat
    requires IsDigit(c)
  {
    c as int - '0' as int
  }

  /** `str(n)` for a natural number: its decimal digits, no leading zero. */
  function NatToString(n: nat): (r: string)
    ensures |r| > 0
    ensures forall i :: 0 <= i < |r| ==> IsDigit(r[i])
    ensures r[0] == '0' ==> n == 0
    decreases n
  {
    if n < 10 then [DigitChar(n)] else NatToString(n / 10) + [DigitChar(n % 10)]
  }

  /** `str(n)` for any integer. */
  function IntToString(n: int): string {
    if n < 0 then "-" + NatToString(-n) else NatToString(n)
  }

  /** The value of a non-empty run of decimal digits. */
  function DigitsValue(s: string): nat
    requires forall i :: 0 <= i < |s| ==> IsDigit(s[i])
    decreases |s|
  {
    if |s| == 0 then 0 else DigitsValue(s[..|s| - 1]) * 10 + DigitValue(s[|s| - 1])
  }

  predicate AllDigits(s: string) {
    |s| > 0 && forall i :: 0 <= i < |s| ==> IsDigit(s[i])
  }

  /**
   * `int(s)` on an optional sign followed by ASCII digits; None stands for the
   * ValueError Python raises on anything else.
   */
  function ParseInt(s: string): Option<int> {
    if |s| > 0 && (s[0] == '-' || s[0] == '+') then
      if AllDigits(s[1..]) then
        var magnitude: int := DigitsValue(s[1..]);
        Some(if s[0] == '-' then -magnitude else magnitude)
      else None
    else if AllDigits(s) then Some(DigitsValue(s))
    else None
  }

  lemma {:induction false} DigitsOfNat(n: nat)
    ensures AllDigits(NatToString(n))
    ensures DigitsValue(NatToString(n)) == n
    decreases n
  {
    if n >= 10 {
      DigitsOfNat(n / 10);
      var s := NatToString(n / 10) + [DigitChar(n % 10)];
      assert s[..|s| - 1] == NatToString(n / 10);
    }
  }

  /** Decimal rendering and parsing are inverse: `int(str(n)) == n`. */
  lemma ParseIntToString(n: int)
    ensures ParseInt(IntToString(n)) == Some(n)
  {
    if n < 0 {
      var t := NatToString(-n);
      DigitsOfNat(-n);
      assert ("-" + t)[1..] == t;
      assert ParseInt("-" + t) == Some(n);
    } else {
      var t := NatToString(n);
      DigitsOfNat(n);
      assert IsDigit(t[0]);
      assert ParseInt(t) == Some(DigitsValue(t));
    }
  }

  lemma {:induction false} CountAppend(a: string, b: string, c: char)
    ensures Count(a + b, c) == Count(a, c) + Count(b, c)
  {
    if |a| > 0 {
      assert (a + b)[1..] == a[1..] + b;
      CountAppend(a[1..], b, c);
    } else {
      assert a + b == b;
    }
  }

  lemma {:induction false} ReplaceCharAppend(a: string, b: string, c: char, rep: string)
    ensures ReplaceChar(a + b, c, rep) == ReplaceChar(a, c, rep) + ReplaceChar(b, c, rep)
  {
    if |a| > 0 {
      assert (a + b)[1..] == a[1..] + b;
      ReplaceCharAppend(a[1..], b, c, rep);
    } else {
      assert a + b == b;
    }
  }

  // ---------------------------------------------------------------------------
  // Comparison, splitting and fixed-width digits.

  /** Python's `a <= b` on strings: code points compared left to right, a proper prefix first. */
  predicate StrLe(a: string, b: string)
    decreases |a|
  {
    |a| == 0 || (|b| > 0 && (a[0] < b[0] || (a[0] == b[0] && StrLe(a[1..], b[1..]))))
  }

  lemma {:induction false} StrLeTotal(a: string, b: string)
    ensures StrLe(a, b) || StrLe(b, a)
    decreases |a|
  {
    if |a| > 0 && |b| > 0 && a[0] == b[0] {
      StrLeTotal(a[1..], b[1..]);
    }
  }

  lemma {:induction false} StrLeTransitive(a: string, b: string, c: string)
    requires StrLe(a, b) && StrLe(b, c)
    ensures StrLe(a, c)
    decreases |a|
  {
    if |a| > 0 && a[0] == b[0] && b[0] == c[0] {
      StrLeTransitive(a[1..], b[1..], c[1..]);
    }
  }

  lemma {:induction false} StrLeAntisymmetric(a: string, b: string)
    requires StrLe(a, b) && StrLe(b, a)
    ensures a == b
    decreases |a|
  {
    if |a| > 0 {
      StrLeAntisymmetric(a[1..], b[1..]);
      assert a == [a[0]] + a[1..] && b == [b[0]] + b[1..];
    }
  }

  /**
   * Comparing two strings that start with prefixes of the same length: the
   * prefixes decide unless they are equal, and then the rests do.
   */
  lemma {:induction false} StrLeAppend(p: string, q: string, x: string, y: string)
    requires |p| == |q|
    ensures StrLe(p + x, q + y) <==> (p != q && StrLe(p, q)) || (p == q && StrLe(x, y))
    decreases |p|
  {
    if |p| == 0 {
      assert p + x == x && q + y == y;
    } else {
      assert (p + x)[0] == p[0] && (q + y)[0] == q[0];
      assert (p + x)[1..] == p[1..] + x && (q + y)[1..] == q[1..] + y;
      StrLeAppend(p[1..], q[1..], x, y);
      assert p == [p[0]] + p[1..] && q == [q[0]] + q[1..];
    }
  }

  /** `s.split(c)` for a one-character separator. */
  function SplitOn(s: string, c: char): (parts: seq<string>)
    ensures |parts| > 0
  {
    if |s| == 0 then [""]
    else
      var rest := SplitOn(s[1..], c);
      if s[0] == c then [""] + rest else [[s[0]] + rest[0]] + rest[1..]
  }

  lemma {:induction false} SplitOnCount(s: string, c: char)
    ensures |SplitOn(s, c)| == Count(s, c) + 1
  {
    if |s| > 0 {
      SplitOnCount(s[1..], c);
    }
  }

  lemma {:induction false} SplitOnParts(s: string, c: char)
    ensures forall i :: 0 <= i < |SplitOn(s, c)| ==> Count(SplitOn(s, c)[i], c) == 0
  {
    if |s| > 0 {
      var rest := SplitOn(s[1..], c);
      SplitOnParts(s[1..], c);
      var parts := SplitOn(s, c);
      if s[0] == c {
        forall i | 0 <= i < |parts| ensures Count(parts[i], c) == 0 {
          if i > 0 { assert parts[i] == rest[i - 1]; }
        }
      } else {
        var head := [s[0]] + rest[0];
        assert head[1..] == rest[0];
        forall i | 0 <= i < |parts| ensures Count(parts[i], c) == 0 {
          if i > 0 { assert parts[i] == rest[i]; }
        }
      }
    }
  }

  lemma {:induction false} SplitOnJoin(s: string, c: char)
    ensures Join(SplitOn(s, c), [c]) == s
  {
    if |s| > 0 {
      var rest := SplitOn(s[1..], c);
      SplitOnJoin(s[1..], c);
      var parts := SplitOn(s, c);
      if s[0] == c {
        assert parts[1..] == rest;
        assert s == [c] + s[1..];
      } else {
        var head := [s[0]] + rest[0];
        if |rest| > 1 {
          assert parts[1..] == rest[1..];
        }
        assert s == [s[0]] + s[1..];
      }
    }
  }

  /** A string without the separator splits into itself alone. */
  lemma {:induction false} SplitOnNone(s: string, c: char)
    requires Count(s, c) == 0
    ensures SplitOn(s, c) == [s]
  {
    if |s| > 0 {
      SplitOnNone(s[1..], c);
      assert s == [s[0]] + s[1..];
    }
  }

  /** Two separator-free strings joined by the separator split back into the two. */
  lemma {:induction false} SplitOnPair(a: string, b: string, c: char)
    requires Count(a, c) == 0 && Count(b, c) == 0
    ensures SplitOn(a + [c] + b, c) == [a, b]
  {
    if |a| == 0 {
      SplitOnNone(b, c);
      assert (a + [c] + b)[1..] == b;
    } else {
      SplitOnPair(a[1..], b, c);
      assert (a + [c] + b)[1..] == a[1..] + [c] + b;
      assert a == [a[0]] + a[1..];
    }
  }

  /** A string none of whose characters is `c` holds no `c`. */
  lemma {:induction false} CountAbsent(s: string, c: char)
    requires forall i :: 0 <= i < |s| ==> s[i] != c
    ensures Count(s, c) == 0
  {
    if |s| > 0 {
      CountAbsent(s[1..], c);
    }
  }

  /**
   * Splitting on a character yields one more part than the string has
   * separators, no part holds the separator, and joining the parts with the
   * separator gives back the string.
   */
  lemma SplitOnSpec(s: string, c: char)
    ensures |SplitOn(s, c)| == Count(s, c) + 1
    ensures forall i :: 0 <= i < |SplitOn(s, c)| ==> Count(SplitOn(s, c)[i], c) == 0
    ensures Join(SplitOn(s, c), [c]) == s
  {
    SplitOnCount(s, c);
    SplitOnParts(s, c);
    SplitOnJoin(s, c);
  }

  function Pow10(n: nat): (r: nat)
    ensures r >= 1
  {
    if n == 0 then 1 else 10 * Pow10(n - 1)
  }

  /** `n` in exactly `width` decimal digits, zero-padded (`%04d`, `%02d`). */
  function Digits(n: nat, width: nat): (r: string)
    ensures |r| == width
    ensures forall i :: 0 <= i < |r| ==> IsDigit(r[i])
  {
    if width == 0 then "" else Digits(n / 10, width - 1) + [DigitChar(n % 10)]
  }

  /** Padded digits read back as the number they pad. */
  lemma {:induction false} DigitsValueOf(n: nat, width: nat)
    requires n < Pow10(width)
    ensures DigitsValue(Digits(n, width)) == n
  {
    if width > 0 {
      DigitsValueOf(n / 10, width - 1);
      var s := Digits(n, width);
      assert s[..|s| - 1] == Digits(n / 10, width - 1);
    }
  }

  /** Padded digits of equal width compare as strings the way the numbers compare. */
  lemma {:induction false} DigitsOrder(a: nat, b: nat, width: nat)
    requires a < Pow10(width) && b < Pow10(width)
    ensures StrLe(Digits(a, width), Digits(b, width)) <==> a <= b
    ensures Digits(a, width) == Digits(b, width) <==> a == b
  {
    if width > 0 {
      DigitsOrder(a / 10, b / 10, width - 1);
      var p, q := Digits(a / 10, width - 1), Digits(b / 10, width - 1);
      var x, y := [DigitChar(a % 10)], [DigitChar(b % 10)];
      StrLeAppend(p, q, x, y);
      assert x[1..] == [] && y[1..] == [];
      if p + x == q + y {
        assert (p + x)[..|p|] == p && (q + y)[..|q|] == q;
        assert (p + x)[|p|] == x[0];
      }
    }
  }
}
