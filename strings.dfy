/** Character classes and the few `str` operations the validator relies on:
    `strip`, `strip(c)`, `lower`, `replace(c, '')` and the `in` substring test. */
module Strings {

  /** ASCII decimal digit (the `\d` of the validator's regular expressions, narrowed to ASCII). */
  predicate IsDigit(c: char) { '0' <= c <= '9' }

  /** Python's `str.isspace()`: the characters that `str.strip()` removes. */
  predicate IsSpace(c: char) {
    c == ' ' || '\t' <= c <= '\r' || '\U{1C}' <= c <= '\U{1F}' || c == '\U{85}' || c == '\U{A0}'
    || c == '\U{1680}' || '\U{2000}' <= c <= '\U{200A}' || c == '\U{2028}' || c == '\U{2029}'
    || c == '\U{202F}' || c == '\U{205F}' || c == '\U{3000}'
  }

  predicate AllDigits(s: string) { forall i :: 0 <= i < |s| ==> IsDigit(s[i]) }

  /** Numeric value of a digit character (`int(ch)`). */
  function DigitValue(c: char): (d: int)
    requires IsDigit(c)
    ensures 0 <= d <= 9
  {
    c as int - '0' as int
  }

  function LowerChar(c: char): char {
    if 'A' <= c <= 'Z' then (c as int + 32) as char else c
  }

  /** `str.lower()`, on ASCII letters. */
  function Lower(s: string): (r: string)
    ensures |r| == |s|
    ensures forall i :: 0 <= i < |s| ==> r[i] == LowerChar(s[i])
  {
    seq(|s|, i requires 0 <= i < |s| => LowerChar(s[i]))
  }

  /** Drops the leading characters that satisfy `drop`. */
  function TrimStartBy(s: string, drop: char -> bool): (r: string)
    ensures |r| <= |s|
  {
    if s != [] && drop(s[0]) then TrimStartBy(s[1..], drop) else s
  }

  /** Drops the trailing characters that satisfy `drop`. */
  function TrimEndBy(s: string, drop: char -> bool): (r: string)
    ensures |r| <= |s|
  {
    if s != [] && drop(s[|s| - 1]) then TrimEndBy(s[..|s| - 1], drop) else s
  }

  function TrimBy(s: string, drop: char -> bool): string {
    TrimEndBy(TrimStartBy(s, drop), drop)
  }

  /** `str.strip()` */
  function Strip(s: string): string {
    TrimBy(s, IsSpace)
  }

  /** The test "is the character `c`". */
  function Is(c: char): char -> bool {
    x => x == c
  }

  /** `str.strip(c)` */
  function StripChar(s: string, c: char): string {
    TrimBy(s, Is(c))
  }

  /** `str.replace(c, "")` */
  function RemoveChar(s: string, c: char): (r: string)
    ensures |r| <= |s|
    ensures forall i :: 0 <= i < |r| ==> r[i] != c
  {
    if s == [] then [] else (if s[0] == c then [] else [s[0]]) + RemoveChar(s[1..], c)
  }

  /** The digit characters of `s`, in order. */
  function Digits(s: string): (r: string)
    ensures AllDigits(r) && |r| <= |s|
  {
    if s == [] then [] else (if IsDigit(s[0]) then [s[0]] else []) + Digits(s[1..])
  }

  /** `t` occurs in `s` at position `i`. */
  predicate OccursAt(s: string, t: string, i: int) {
    0 <= i <= |s| - |t| && s[i..i + |t|] == t
  }

  /** Python's `t in s` for strings. */
  predicate Contains(s: string, t: string) {
    exists i | 0 <= i <= |s| - |t| :: OccursAt(s, t, i)
  }

  predicate IsPrefix(p: string, s: string) { |p| <= |s| && s[..|p|] == p }

  // ---------------------------------------------------------------- lemmas

  lemma Assoc(x: string, y: string, z: string)
    ensures x + y + z == x + (y + z)
  {
  }

  lemma {:induction false} RemoveCharAppend(a: string, b: string, c: char)
    ensures RemoveChar(a + b, c) == RemoveChar(a, c) + RemoveChar(b, c)
  {
    if a != [] {
      assert (a + b)[1..] == a[1..] + b;
      RemoveCharAppend(a[1..], b, c);
    } else {
      assert a + b == b;
    }
  }

  lemma {:induction false} DigitsAppend(a: string, b: string)
    ensures Digits(a + b) == Digits(a) + Digits(b)
  {
    if a != [] {
      assert (a + b)[1..] == a[1..] + b;
      DigitsAppend(a[1..], b);
    } else {
      assert a + b == b;
    }
  }

  lemma {:induction false} DigitsOfNonDigits(s: string)
    requires forall i :: 0 <= i < |s| ==> !IsDigit(s[i])
    ensures Digits(s) == []
  {
    if s != [] { DigitsOfNonDigits(s[1..]); }
  }

  lemma {:induction false} DigitsOfAllDigits(s: string)
    requires AllDigits(s)
    ensures Digits(s) == s
  {
    if s != [] { DigitsOfAllDigits(s[1..]); }
  }

  /** Removing a prefix and a suffix made of non-digits keeps the digits. */
  lemma {:induction false} DigitsOfInfix(s: string, i: nat, j: nat)
    requires i <= j <= |s|
    requires forall k :: 0 <= k < i ==> !IsDigit(s[k])
    requires forall k :: j <= k < |s| ==> !IsDigit(s[k])
    ensures Digits(s[i..j]) == Digits(s)
  {
    var pre, mid, post := s[..i], s[i..j], s[j..];
    DigitsOfNonDigits(pre);
    DigitsOfNonDigits(post);
    DigitsAppend(pre, mid);
    assert Digits(pre + mid) == Digits(mid);
    DigitsAppend(pre + mid, post);
    assert Digits(pre + mid + post) == Digits(mid);
    assert s == pre + mid + post;
  }

  /** What `TrimStartBy` drops is a prefix of dropped characters, and what it keeps
      starts with a kept one. */
  lemma {:induction false} TrimStartShape(s: string, drop: char -> bool)
    ensures var r := TrimStartBy(s, drop);
      |r| <= |s| && r == s[|s| - |r|..] && (r == [] || !drop(r[0]))
      && forall i :: 0 <= i < |s| - |r| ==> drop(s[i])
  {
    if s != [] && drop(s[0]) {
      TrimStartShape(s[1..], drop);
      var r := TrimStartBy(s[1..], drop);
      assert s[1..][|s| - 1 - |r|..] == s[|s| - |r|..];
      forall i | 1 <= i < |s| - |r| ensures drop(s[i]) {
        assert s[i] == s[1..][i - 1];
      }
    }
  }

  /** What `TrimEndBy` drops is a suffix of dropped characters, and what it keeps ends
      with a kept one. */
  lemma {:induction false} TrimEndShape(s: string, drop: char -> bool)
    ensures var r := TrimEndBy(s, drop);
      |r| <= |s| && r == s[..|r|] && (r == [] || !drop(r[|r| - 1]))
      && forall i :: |r| <= i < |s| ==> drop(s[i])
  {
    if s != [] && drop(s[|s| - 1]) {
      TrimEndShape(s[..|s| - 1], drop);
      var r := TrimEndBy(s[..|s| - 1], drop);
      assert s[..|s| - 1][..|r|] == s[..|r|];
      forall i | |r| <= i < |s| - 1 ensures drop(s[i]) {
        assert s[i] == s[..|s| - 1][i];
      }
    }
  }

  lemma TrimByKeepsInfix(s: string, drop: char -> bool)
    ensures exists i, j :: 0 <= i <= j <= |s| && TrimBy(s, drop) == s[i..j]
              && (forall k :: 0 <= k < i ==> drop(s[k])) && (forall k :: j <= k < |s| ==> drop(s[k]))
  {
    var a := TrimStartBy(s, drop);
    TrimStartShape(s, drop);
    var i := |s| - |a|;
    var r := TrimEndBy(a, drop);
    TrimEndShape(a, drop);
    assert r == s[i..i + |r|];
    forall k | i + |r| <= k < |s| ensures drop(s[k]) { assert s[k] == a[k - i]; }
  }

  /** Trimming characters that are not digits keeps the digits. */
  lemma DigitsOfTrimBy(s: string, drop: char -> bool)
    requires forall c :: drop(c) ==> !IsDigit(c)
    ensures Digits(TrimBy(s, drop)) == Digits(s)
  {
    TrimByKeepsInfix(s, drop);
    var i, j :| 0 <= i <= j <= |s| && TrimBy(s, drop) == s[i..j]
              && (forall k :: 0 <= k < i ==> drop(s[k])) && (forall k :: j <= k < |s| ==> drop(s[k]));
    DigitsOfInfix(s, i, j);
  }

  /** A string whose ends are kept is its own trim. */
  lemma TrimByNoop(s: string, drop: char -> bool)
    requires s == [] || (!drop(s[0]) && !drop(s[|s| - 1]))
    ensures TrimBy(s, drop) == s
  {
    assert TrimStartBy(s, drop) == s;
  }

  lemma TrimByIdempotent(s: string, drop: char -> bool)
    ensures TrimBy(TrimBy(s, drop), drop) == TrimBy(s, drop)
  {
    var a := TrimStartBy(s, drop);
    TrimStartShape(s, drop);
    var r := TrimEndBy(a, drop);
    TrimEndShape(a, drop);
    assert r != [] ==> r[0] == a[0];
    TrimByNoop(r, drop);
  }

  lemma TrimByAllDropped(s: string, drop: char -> bool)
    requires forall i :: 0 <= i < |s| ==> drop(s[i])
    ensures TrimBy(s, drop) == []
  {
    TrimStartShape(s, drop);
  }

  /** The ends of a trimmed string are kept characters. */
  lemma TrimByEnds(s: string, drop: char -> bool)
    ensures var r := TrimBy(s, drop); r == [] || (!drop(r[0]) && !drop(r[|r| - 1]))
  {
    var a := TrimStartBy(s, drop);
    TrimStartShape(s, drop);
    var r := TrimEndBy(a, drop);
    TrimEndShape(a, drop);
    assert r != [] ==> r[0] == a[0];
  }

  lemma {:induction false} TrimStartPrefix(p: string, r: string, drop: char -> bool)
    requires forall i :: 0 <= i < |p| ==> drop(p[i])
    requires r == [] || !drop(r[0])
    ensures TrimStartBy(p + r, drop) == r
  {
    if p != [] {
      assert (p + r)[1..] == p[1..] + r;
      TrimStartPrefix(p[1..], r, drop);
    } else {
      assert p + r == r;
    }
  }

  lemma {:induction false} TrimEndSuffix(r: string, q: string, drop: char -> bool)
    requires forall i :: 0 <= i < |q| ==> drop(q[i])
    requires r == [] || !drop(r[|r| - 1])
    ensures TrimEndBy(r + q, drop) == r
  {
    if q != [] {
      var q' := q[..|q| - 1];
      assert (r + q)[..|r + q| - 1] == r + q';
      TrimEndSuffix(r, q', drop);
    } else {
      assert r + q == r;
    }
  }

  /** Trimming `p + m + q` gives `m` when `p` and `q` are dropped and `m`'s ends are kept:
      the trim of a string is determined by these three facts. */
  lemma TrimByUnique(p: string, m: string, q: string, drop: char -> bool)
    requires forall i :: 0 <= i < |p| ==> drop(p[i])
    requires forall i :: 0 <= i < |q| ==> drop(q[i])
    requires m == [] || (!drop(m[0]) && !drop(m[|m| - 1]))
    ensures TrimBy(p + m + q, drop) == m
  {
    if m == [] {
      assert p + m + q == (p + q) + [];
      TrimStartPrefix(p + q, [], drop);
    } else {
      assert p + m + q == p + (m + q);
      TrimStartPrefix(p, m + q, drop);
      TrimEndSuffix(m, q, drop);
    }
  }

  /** `s` is its trim between two runs of dropped characters. */
  lemma {:induction false} SplitTrim(s: string, drop: char -> bool) returns (p: string, m: string, q: string)
    ensures s == p + m + q && m == TrimBy(s, drop)
    ensures forall i :: 0 <= i < |p| ==> drop(p[i])
    ensures forall i :: 0 <= i < |q| ==> drop(q[i])
    ensures m == [] || (!drop(m[0]) && !drop(m[|m| - 1]))
  {
    TrimByKeepsInfix(s, drop);
    TrimByEnds(s, drop);
    var a, b :| 0 <= a <= b <= |s| && TrimBy(s, drop) == s[a..b]
          && (forall k :: 0 <= k < a ==> drop(s[k])) && (forall k :: b <= k < |s| ==> drop(s[k]));
    p, m, q := s[..a], s[a..b], s[b..];
    Split3(s, a, b);
  }

  lemma Split3(s: string, a: nat, b: nat)
    requires a <= b <= |s|
    ensures s == s[..a] + s[a..b] + s[b..]
  {
  }

  lemma Regroup(a: string, p: string, m: string, q: string, b: string)
    ensures a + (p + m + q) + b == (a + p) + m + (q + b)
  {
  }

  /** Extra dropped characters around a string do not change its trim. */
  lemma {:induction false} TrimPadding(s: string, pad1: string, pad2: string, drop: char -> bool)
    requires forall i :: 0 <= i < |pad1| ==> drop(pad1[i])
    requires forall i :: 0 <= i < |pad2| ==> drop(pad2[i])
    ensures TrimBy(pad1 + s + pad2, drop) == TrimBy(s, drop)
  {
    var p, m, q := SplitTrim(s, drop);
    Regroup(pad1, p, m, q, pad2);
    TrimByUnique(pad1 + p, m, q + pad2, drop);
  }

  lemma LowerIdempotent(s: string)
    ensures Lower(Lower(s)) == Lower(s)
  {
  }

  lemma LowerAppend(a: string, b: string)
    ensures Lower(a + b) == Lower(a) + Lower(b)
  {
  }

  /** Lower-casing commutes with trimming when lower-casing never changes whether a
      character is dropped. */
  lemma {:induction false} TrimLower(s: string, drop: char -> bool)
    requires forall c :: drop(LowerChar(c)) == drop(c)
    ensures TrimBy(Lower(s), drop) == Lower(TrimBy(s, drop))
  {
    var p, m, q := SplitTrim(s, drop);
    LowerAppend(p, m);
    LowerAppend(p + m, q);
    TrimByUnique(Lower(p), Lower(m), Lower(q), drop);
  }

  /** Where position `i` of `p + m + q` falls. */
  lemma Locate(p: string, m: string, q: string, i: nat)
    requires i < |p + m + q|
    ensures i < |p| ==> (p + m + q)[i] == p[i]
    ensures |p| <= i < |p| + |m| ==> (p + m + q)[i] == m[i - |p|]
    ensures |p| + |m| <= i ==> (p + m + q)[i] == q[i - |p| - |m|]
  {
  }

  /** A kept character of `s` is a character of its trim. */
  lemma {:induction false} KeptInTrim(s: string, drop: char -> bool, i: nat) returns (j: nat)
    requires i < |s| && !drop(s[i])
    ensures j < |TrimBy(s, drop)| && TrimBy(s, drop)[j] == s[i]
  {
    var p, m, q := SplitTrim(s, drop);
    KeptInMiddle(p, m, q, drop, i);
    j := i - |p|;
  }

  /** A kept position of `p + m + q`, with `p` and `q` dropped, lies in `m`. */
  lemma KeptInMiddle(p: string, m: string, q: string, drop: char -> bool, i: nat)
    requires forall k :: 0 <= k < |p| ==> drop(p[k])
    requires forall k :: 0 <= k < |q| ==> drop(q[k])
    requires i < |p + m + q| && !drop((p + m + q)[i])
    ensures |p| <= i < |p| + |m| && m[i - |p|] == (p + m + q)[i]
  {
    Locate(p, m, q, i);
  }

  /** `Contains(s, t)` only when every character of `t` occurs in `s`. */
  lemma ContainsChars(s: string, t: string, k: nat)
    requires Contains(s, t) && k < |t|
    ensures t[k] in s
  {
    var i :| 0 <= i <= |s| - |t| && OccursAt(s, t, i);
    assert s[i..i + |t|][k] == t[k];
  }
}
