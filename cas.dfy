/** CAS registry numbers: `normalize_cas` and `is_valid_cas`.
    A CAS number is written `first-middle-check` with 2 to 7 digits in `first`,
    2 in `middle` and one check digit. */
module Cas {
  import opened Strings
  import opened Cells

  predicate NotDigit(c: char) { !IsDigit(c) }

  /** Every character is a digit or a dash. */
  predicate DashOrDigit(s: string) {
    forall i :: 0 <= i < |s| ==> IsDigit(s[i]) || s[i] == '-'
  }

  /** No two dashes in a row. */
  predicate NoDoubleDash(s: string) {
    forall i :: 0 <= i < |s| - 1 ==> s[i] == '-' ==> s[i + 1] != '-'
  }

  /** Digits separated by single dashes, beginning and ending with a digit. */
  predicate DashNormal(c: string) {
    DashOrDigit(c) && NoDoubleDash(c) && (c == [] || (IsDigit(c[0]) && IsDigit(c[|c| - 1])))
  }

  /** `re.sub(r"[^\d]+", "-", s)`: every maximal run of non-digits becomes one dash. */
  function DashRuns(s: string): (r: string)
    decreases |s|
  {
    if s == [] then []
    else if IsDigit(s[0]) then [s[0]] + DashRuns(s[1..])
    else "-" + DashRuns(TrimStartBy(s[1..], NotDigit))
  }

  /** `f"{first}-{middle}-{check_digit}"` over the digits of a number. */
  function Format(d: string): string
    requires |d| >= 3
  {
    d[..|d| - 3] + "-" + d[|d| - 3..|d| - 1] + "-" + d[|d| - 1..]
  }

  /** `normalize_cas`: None for a missing value; otherwise the stripped text with its
      non-digit runs collapsed to single dashes and outer dashes removed, the stripped
      text itself when nothing is left, and the digits regrouped as `first-middle-check`
      when there are at least five of them. */
  function NormalizeCas(v: Cell): (r: Option<string>)
    ensures r.None? <==> IsMissing(v)
  {
    if IsMissing(v) then None
    else
      var raw := Strip(v.s);
      var c := StripChar(DashRuns(raw), '-');
      if c == [] then Some(raw)
      else
        var d := RemoveChar(c, '-');
        if !(d != [] && AllDigits(d)) || |d| < 5 then Some(c)
        else Some(Format(d))
  }

  /** A value that is not missing normalises to a non-empty (truthy) string. */
  lemma NormalizeTruthy(v: Cell)
    ensures Present(NormalizeCas(v)) <==> !IsMissing(v)
  {
  }

  /** `re.fullmatch(r"\d{2,7}-\d{2}-\d", t)`. */
  predicate CasPattern(t: string) {
    var n := |t| - 5;
    2 <= n <= 7 && AllDigits(t[..n]) && t[n] == '-' && AllDigits(t[n + 1..n + 3])
    && t[n + 3] == '-' && IsDigit(t[n + 4])
  }

  /** Sum of the digits of `b`, the last one weighted 1, the one before it 2, and so on. */
  function WeightedSum(b: string): (total: int)
    requires AllDigits(b)
    ensures total >= 0
  {
    if b == [] then 0 else DigitValue(b[0]) * |b| + WeightedSum(b[1..])
  }

  /** The check digit is the weighted sum of the other digits modulo 10. */
  predicate CheckDigitOk(d: string)
    requires |d| >= 1 && AllDigits(d)
  {
    WeightedSum(d[..|d| - 1]) % 10 == DigitValue(d[|d| - 1])
  }

  /** `is_valid_cas`: not missing, matches the pattern once stripped, and the check digit agrees. */
  predicate IsValidCasSpec(v: Cell) {
    !IsMissing(v) &&
    var t := Strip(v.s);
    CasPattern(t) && (PatternDigits(t); CheckDigitOk(RemoveChar(t, '-')))
  }

  /** `is_valid_cas`. */
  method IsValidCas(v: Cell) returns (ok: bool)
    ensures ok == IsValidCasSpec(v)
  {
    if IsMissing(v) {
      return false;
    }
    var t := Strip(v.s);
    if !CasPattern(t) {
      return false;
    }
    var digits := RemoveChar(t, '-');
    PatternDigits(t);
    var check := DigitValue(digits[|digits| - 1]);
    var total := ReversedWeightedSum(digits[..|digits| - 1]);
    ok := total % 10 == check;
  }

  /** The loop of `is_valid_cas`: walks the body from its last digit, weighting by position. */
  method ReversedWeightedSum(body: string) returns (total: int)
    requires AllDigits(body)
    ensures total == WeightedSum(body)
  {
    total := 0;
    var i := 1;
    while i <= |body|
      invariant 1 <= i <= |body| + 1
      invariant total == WeightedSum(body[|body| - (i - 1)..])
    {
      assert body[|body| - i..][1..] == body[|body| - (i - 1)..];
      total := total + DigitValue(body[|body| - i]) * i;
      i := i + 1;
    }
    assert body[|body| - (i - 1)..] == body;
  }

  // ---------------------------------------------------------------- lemmas

  /** The digits of a pattern match are its characters without the two dashes. */
  lemma PatternDigits(t: string)
    requires CasPattern(t)
    ensures var n := |t| - 5; RemoveChar(t, '-') == t[..n] + t[n + 1..n + 3] + t[n + 4..]
    ensures var d := RemoveChar(t, '-'); |d| == |t| - 2 && AllDigits(d) && d == Digits(t)
  {
    var n := |t| - 5;
    var a, b, c := t[..n], t[n + 1..n + 3], t[n + 4..];
    assert t == a + "-" + b + "-" + c;
    assert c == [t[n + 4]];
    DashedRemove(a, b, c);
    DashedDigits(a, b, c);
  }

  /** `a-b-c` read from the right. */
  lemma DashesNest(a: string, b: string, c: string)
    ensures a + "-" + b + "-" + c == a + ("-" + (b + ("-" + c)))
  {
    Assoc(a + "-" + b, "-", c);
    Assoc(a + "-", b, "-" + c);
    Assoc(a, "-", b + ("-" + c));
  }

  /** Removing the two dashes between three runs of digits joins the runs. */
  lemma DashedRemove(a: string, b: string, c: string)
    requires AllDigits(a) && AllDigits(b) && AllDigits(c)
    ensures RemoveChar(a + "-" + b + "-" + c, '-') == a + b + c
  {
    var t1 := "-" + c;
    var t2 := b + t1;
    var t3 := "-" + t2;
    assert RemoveChar("-", '-') == [];
    NoDashes(a);
    NoDashes(b);
    NoDashes(c);
    RemoveCharAppend("-", c, '-');
    assert RemoveChar(t1, '-') == c;
    RemoveCharAppend(b, t1, '-');
    assert RemoveChar(t2, '-') == b + c;
    RemoveCharAppend("-", t2, '-');
    assert RemoveChar(t3, '-') == b + c;
    RemoveCharAppend(a, t3, '-');
    assert RemoveChar(a + t3, '-') == a + (b + c);
    DashesNest(a, b, c);
    Assoc(a, b, c);
  }

  /** Keeping only the digits of three runs of digits around two dashes joins the runs. */
  lemma DashedDigits(a: string, b: string, c: string)
    requires AllDigits(a) && AllDigits(b) && AllDigits(c)
    ensures Digits(a + "-" + b + "-" + c) == a + b + c
  {
    var t1 := "-" + c;
    var t2 := b + t1;
    var t3 := "-" + t2;
    assert Digits("-") == [];
    DigitsOfAllDigits(a);
    DigitsOfAllDigits(b);
    DigitsOfAllDigits(c);
    DigitsAppend("-", c);
    assert Digits(t1) == c;
    DigitsAppend(b, t1);
    assert Digits(t2) == b + c;
    DigitsAppend("-", t2);
    assert Digits(t3) == b + c;
    DigitsAppend(a, t3);
    assert Digits(a + t3) == a + (b + c);
    DashesNest(a, b, c);
    Assoc(a, b, c);
  }

  /** Removing dashes from all-digit text changes nothing. */
  lemma {:induction false} NoDashes(s: string)
    requires AllDigits(s)
    ensures RemoveChar(s, '-') == s
  {
    if s != [] {
      NoDashes(s[1..]);
    }
  }

  /** The collapsed text is made of digits and single dashes, and starts with a dash
      exactly when the input starts with a non-digit. */
  lemma {:induction false} DashRunsShape(s: string)
    decreases |s|
    ensures var r := DashRuns(s); DashOrDigit(r) && NoDoubleDash(r) && (r == [] <==> s == [])
    ensures var r := DashRuns(s); r != [] ==> (r[0] == '-' <==> !IsDigit(s[0]))
  {
    if s == [] {
    } else if IsDigit(s[0]) {
      DashRunsShape(s[1..]);
      var t := DashRuns(s[1..]);
      assert DashRuns(s) == [s[0]] + t;
    } else {
      var u := TrimStartBy(s[1..], NotDigit);
      TrimStartShape(s[1..], NotDigit);
      DashRunsShape(u);
      var t := DashRuns(u);
      assert t != [] ==> IsDigit(u[0]) && t[0] != '-';
      assert DashRuns(s) == "-" + t;
    }
  }

  /** Collapsing non-digit runs keeps every digit, in order. */
  lemma {:induction false} DashRunsDigits(s: string)
    decreases |s|
    ensures Digits(DashRuns(s)) == Digits(s)
  {
    if s == [] {
    } else if IsDigit(s[0]) {
      DashRunsDigits(s[1..]);
      DigitsAppend([s[0]], DashRuns(s[1..]));
    } else {
      var u := TrimStartBy(s[1..], NotDigit);
      TrimStartShape(s[1..], NotDigit);
      DashRunsDigits(u);
      DigitsAppend("-", DashRuns(u));
      DigitsOfInfix(s[1..], |s[1..]| - |u|, |s[1..]|);
      assert s[1..][|s[1..]| - |u|..|s[1..]|] == u;
    }
  }

  /** Text of digits and single dashes is left alone by the collapse. */
  lemma {:induction false} DashRunsFix(c: string)
    requires DashOrDigit(c) && NoDoubleDash(c)
    ensures DashRuns(c) == c
  {
    if c != [] {
      DashRunsFix(c[1..]);
      if !IsDigit(c[0]) {
        assert c[1..] == [] || IsDigit(c[1..][0]);
        assert TrimStartBy(c[1..], NotDigit) == c[1..];
      }
      assert c == [c[0]] + c[1..];
    }
  }

  /** On digits and dashes, removing the dashes leaves the digits. */
  lemma {:induction false} RemoveDashes(c: string)
    requires DashOrDigit(c)
    ensures RemoveChar(c, '-') == Digits(c)
  {
    if c != [] {
      RemoveDashes(c[1..]);
    }
  }

  /** A slice of digits and single dashes is again digits and single dashes. */
  lemma SliceShape(s: string, i: nat, j: nat)
    requires i <= j <= |s| && DashOrDigit(s) && NoDoubleDash(s)
    ensures DashOrDigit(s[i..j]) && NoDoubleDash(s[i..j])
  {
    assert forall k :: 0 <= k < j - i ==> s[i..j][k] == s[i + k];
  }

  /** A string with a digit has digits. */
  lemma {:induction false} HasDigits(s: string, i: nat)
    requires i < |s| && IsDigit(s[i])
    ensures Digits(s) != []
  {
    if !IsDigit(s[0]) {
      HasDigits(s[1..], i - 1);
    }
  }

  /** What `normalize_cas` computes before regrouping: the non-digit runs of the
      stripped text collapsed and the outer dashes removed. */
  function Collapsed(raw: string): string {
    StripChar(DashRuns(raw), '-')
  }

  lemma CollapsedShape(raw: string)
    ensures DashNormal(Collapsed(raw))
  {
    var r := DashRuns(raw);
    DashRunsShape(raw);
    TrimByKeepsInfix(r, Is('-'));
    TrimByEnds(r, Is('-'));
    var i, j :| 0 <= i <= j <= |r| && Collapsed(raw) == r[i..j];
    SliceShape(r, i, j);
  }

  lemma CollapsedDigits(raw: string)
    ensures Digits(Collapsed(raw)) == Digits(raw)
    ensures Collapsed(raw) == [] <==> Digits(raw) == []
  {
    var r := DashRuns(raw);
    var c := Collapsed(raw);
    DashRunsDigits(raw);
    DigitsOfTrimBy(r, Is('-'));
    CollapsedShape(raw);
    if c != [] {
      HasDigits(c, 0);
    }
  }

  /** Spaces are not digits, so stripping keeps the digits. */
  lemma DigitsOfStrip(s: string)
    ensures Digits(Strip(s)) == Digits(s)
  {
    DigitsOfTrimBy(s, IsSpace);
  }

  /** Text of digits and single dashes survives stripping and collapsing unchanged. */
  lemma CollapsedFix(c: string)
    requires DashNormal(c)
    ensures Strip(c) == c && Collapsed(c) == c
    ensures RemoveChar(c, '-') == Digits(c)
  {
    TrimByNoop(c, IsSpace);
    DashRunsFix(c);
    TrimByNoop(c, Is('-'));
    RemoveDashes(c);
  }

  /** Normalising text that is already digits and single dashes. */
  lemma NormalizeDashNormal(c: string)
    requires DashNormal(c) && c != []
    ensures |Digits(c)| >= 5 ==> NormalizeCas(Text(c)) == Some(Format(Digits(c)))
    ensures |Digits(c)| < 5 ==> NormalizeCas(Text(c)) == Some(c)
  {
    DigitIsNotMissing(c, 0);
    CollapsedFix(c);
  }

  /** Regrouping five or more digits gives digits and single dashes holding the same digits;
      it matches the CAS pattern exactly when there are at most ten digits. */
  lemma FormatShape(d: string)
    requires AllDigits(d) && |d| >= 5
    ensures DashNormal(Format(d)) && Digits(Format(d)) == d
    ensures CasPattern(Format(d)) <==> |d| <= 10
  {
    FormatDigits(d);
    FormatNormal(d);
    FormatPattern(d);
  }

  lemma FormatDigits(d: string)
    requires AllDigits(d) && |d| >= 3
    ensures Digits(Format(d)) == d
  {
    var a, b, c := d[..|d| - 3], d[|d| - 3..|d| - 1], d[|d| - 1..];
    DashedDigits(a, b, c);
    assert a + b + c == d;
  }

  lemma FormatNormal(d: string)
    requires AllDigits(d) && |d| >= 4
    ensures DashNormal(Format(d))
  {
    var a, b, c := d[..|d| - 3], d[|d| - 3..|d| - 1], d[|d| - 1..];
    var f := Format(d);
    var m := |a|;
    assert |f| == m + 5;
    assert forall k :: 0 <= k < m ==> f[k] == d[k];
    assert f[m] == '-' && f[m + 3] == '-';
    assert f[m + 1] == d[m] && f[m + 2] == d[m + 1] && f[m + 4] == d[m + 2];
    assert DashOrDigit(f);
  }

  lemma FormatPattern(d: string)
    requires AllDigits(d) && |d| >= 3
    ensures CasPattern(Format(d)) <==> 5 <= |d| <= 10
  {
    var a, b, c := d[..|d| - 3], d[|d| - 3..|d| - 1], d[|d| - 1..];
    var f := Format(d);
    var m := |a|;
    assert |f| - 5 == m;
    if 5 <= |d| <= 10 {
      assert f[..m] == a && f[m + 1..m + 3] == b;
      assert f[m] == '-' && f[m + 3] == '-' && f[m + 4] == d[|d| - 1];
    }
  }

  /** A pattern match starts and ends with a digit. */
  lemma PatternEnds(t: string)
    requires CasPattern(t)
    ensures |t| > 0 && IsDigit(t[0]) && IsDigit(t[|t| - 1])
  {
    assert t[..|t| - 5][0] == t[0];
  }

  /** A pattern match is digits and single dashes, and regrouping its digits rebuilds it. */
  lemma PatternShape(t: string)
    requires CasPattern(t)
    ensures DashNormal(t) && |Digits(t)| == |t| - 2
    ensures Format(Digits(t)) == t
  {
    var n := |t| - 5;
    PatternDigits(t);
    assert forall k :: 0 <= k < n ==> t[k] == t[..n][k];
    assert forall k :: n + 1 <= k < n + 3 ==> t[k] == t[n + 1..n + 3][k - n - 1];
    var d := Digits(t);
    assert d[..|d| - 3] == t[..n];
    assert d[|d| - 3..|d| - 1] == t[n + 1..n + 3];
    assert d[|d| - 1..] == t[n + 4..];
    assert t == t[..n] + "-" + t[n + 1..n + 3] + "-" + t[n + 4..];
  }

  /** With five or more digits, `normalize_cas` regroups them as `first-middle-check`. */
  lemma NormalizeRegroups(s: string)
    requires !IsMissing(Text(s)) && |Digits(s)| >= 5
    ensures NormalizeCas(Text(s)) == Some(Format(Digits(s)))
  {
    var c := Collapsed(Strip(s));
    DigitsOfStrip(s);
    CollapsedDigits(Strip(s));
    CollapsedShape(Strip(s));
    RemoveDashes(c);
  }

  /** With one to four digits, `normalize_cas` returns them separated by single dashes. */
  lemma NormalizeShort(s: string)
    requires !IsMissing(Text(s)) && 1 <= |Digits(s)| < 5
    ensures NormalizeCas(Text(s)).Some?
    ensures var r := NormalizeCas(Text(s)).value; r != [] && DashNormal(r) && Digits(r) == Digits(s)
  {
    var c := Collapsed(Strip(s));
    DigitsOfStrip(s);
    CollapsedDigits(Strip(s));
    CollapsedShape(Strip(s));
    RemoveDashes(c);
  }

  /** A leading run of digits passes through the collapse unchanged. */
  lemma {:induction false} DigitsRun(a: string, rest: string)
    requires AllDigits(a)
    ensures DashRuns(a + rest) == a + DashRuns(rest)
  {
    if a != [] {
      assert (a + rest)[1..] == a[1..] + rest;
      DigitsRun(a[1..], rest);
      assert a == [a[0]] + a[1..];
    } else {
      assert a + rest == rest;
    }
  }

  /** Skipping non-digits stops at the first digit. */
  lemma {:induction false} SkipRun(p: string, b: string)
    requires forall i :: 0 <= i < |p| ==> !IsDigit(p[i])
    requires b == [] || IsDigit(b[0])
    ensures TrimStartBy(p + b, NotDigit) == b
  {
    if p != [] {
      assert (p + b)[1..] == p[1..] + b;
      SkipRun(p[1..], b);
    } else {
      assert p + b == b;
    }
  }

  /** A run of non-digits between digits becomes exactly one dash. */
  lemma DashRunsJoin(a: string, p: string, b: string)
    requires AllDigits(a) && p != [] && (forall i :: 0 <= i < |p| ==> !IsDigit(p[i]))
    requires b == [] || IsDigit(b[0])
    ensures DashRuns(a + p + b) == a + "-" + DashRuns(b)
  {
    var q := p + b;
    assert q[0] == p[0] && q[1..] == p[1..] + b;
    SkipRun(p[1..], b);
    assert DashRuns(q) == "-" + DashRuns(b);
    DigitsRun(a, q);
    assert a + p + b == a + q;
  }

  /** With fewer than five digits, two runs of digits separated by any run of other
      characters (`"1a2"`, `"12 / 34"`) normalise to the two runs joined by one dash. */
  lemma NormalizeJoined(a: string, p: string, b: string)
    requires AllDigits(a) && AllDigits(b) && a != [] && b != [] && |a| + |b| < 5
    requires p != [] && forall i :: 0 <= i < |p| ==> !IsDigit(p[i])
    ensures NormalizeCas(Text(a + p + b)) == Some(a + "-" + b)
  {
    var s := a + p + b;
    assert s[0] == a[0] && s[|s| - 1] == b[|b| - 1];
    DigitEnds(s);
    DashRunsJoin(a, p, b);
    DigitsRun(b, []);
    assert b + [] == b;
    var c := a + "-" + b;
    assert DashRuns(s) == c;
    JoinedShape(a, b);
    CollapsedFix(c);
    DashRunsFix(c);
  }

  /** Two runs of digits joined by one dash. */
  lemma JoinedShape(a: string, b: string)
    requires AllDigits(a) && AllDigits(b) && a != [] && b != []
    ensures DashNormal(a + "-" + b) && Digits(a + "-" + b) == a + b
  {
    JoinedNormal(a, b);
    DigitsAppend(a, "-");
    DigitsAppend(a + "-", b);
    DigitsOfAllDigits(a);
    DigitsOfAllDigits(b);
    assert Digits("-") == [];
    assert a + [] == a;
  }

  lemma JoinedNormal(a: string, b: string)
    requires AllDigits(a) && AllDigits(b) && a != [] && b != []
    ensures DashNormal(a + "-" + b)
  {
    var c := a + "-" + b;
    var m := |a|;
    forall k | 0 <= k < |c| ensures IsDigit(c[k]) <==> k != m {
      if k < m { assert c[k] == a[k]; } else if k > m { assert c[k] == b[k - m - 1]; }
    }
    assert c[m] == '-';
  }

  /** Without digits, `normalize_cas` returns the stripped text. */
  lemma NormalizeNoDigits(s: string)
    requires !IsMissing(Text(s)) && Digits(s) == []
    ensures NormalizeCas(Text(s)) == Some(Strip(s))
  {
    DigitsOfStrip(s);
    CollapsedDigits(Strip(s));
  }

  /** Normalising twice is normalising once. */
  lemma NormalizeIdempotent(v: Cell)
    requires NormalizeCas(v).Some?
    ensures NormalizeCas(Text(NormalizeCas(v).value)) == NormalizeCas(v)
  {
    var s := v.s;
    var r := NormalizeCas(v).value;
    if |Digits(s)| >= 5 {
      NormalizeRegroups(s);
      FormatShape(Digits(s));
      NormalizeDashNormal(r);
    } else if Digits(s) != [] {
      NormalizeShort(s);
      NormalizeDashNormal(r);
    } else {
      NormalizeNoDigits(s);
      assert TrimCell(v) == Text(r);
      DigitsOfStrip(s);
      NormalizeNoDigits(r);
      TrimByIdempotent(s, IsSpace);
    }
  }

  /** The normalised form matches the CAS pattern exactly when the input holds five to ten digits. */
  lemma NormalizeMatchesPattern(s: string)
    requires !IsMissing(Text(s))
    ensures CasPattern(NormalizeCas(Text(s)).value) <==> 5 <= |Digits(s)| <= 10
  {
    var r := NormalizeCas(Text(s)).value;
    if |Digits(s)| >= 5 {
      NormalizeRegroups(s);
      FormatShape(Digits(s));
    } else {
      if Digits(s) != [] {
        NormalizeShort(s);
      } else {
        NormalizeNoDigits(s);
        DigitsOfStrip(s);
      }
      if CasPattern(r) {
        PatternShape(r);
        assert false;
      }
    }
  }

  /** A valid CAS number is already in normal form: normalising returns it stripped. */
  lemma ValidCasIsNormal(s: string)
    requires IsValidCasSpec(Text(s))
    ensures NormalizeCas(Text(s)) == Some(Strip(s))
  {
    var t := Strip(s);
    PatternShape(t);
    DigitsOfStrip(s);
    NormalizeRegroups(s);
  }

  /** Sum of the digits of `b`. */
  function DigitSum(b: string): (total: int)
    requires AllDigits(b)
    ensures total >= 0
  {
    if b == [] then 0 else DigitValue(b[0]) + DigitSum(b[1..])
  }

  /** Weights of a prefix grow by the length of what follows it. */
  lemma {:induction false} WeightedSumAppend(x: string, y: string)
    requires AllDigits(x) && AllDigits(y)
    ensures WeightedSum(x + y) == WeightedSum(x) + |y| * DigitSum(x) + WeightedSum(y)
  {
    if x == [] {
      assert x + y == y;
    } else {
      var xy := x + y;
      assert xy[1..] == x[1..] + y;
      assert xy[0] == x[0];
      WeightedSumAppend(x[1..], y);
      var h, n, m := DigitValue(x[0]), |x|, |y|;
      var ws, ds := WeightedSum(x[1..]), DigitSum(x[1..]);
      assert WeightedSum(xy) == h * (n + m) + ws + m * ds + WeightedSum(y);
      assert WeightedSum(x) == h * n + ws;
      assert DigitSum(x) == h + ds;
      Distribute(h, n, m, ds);
    }
  }

  lemma Distribute(h: int, n: int, m: int, ds: int)
    ensures h * (n + m) + m * ds == h * n + m * (h + ds)
  {
  }

  /** Only one check digit fits a given body. */
  lemma CheckDigitUnique(body: string, e: char, f: char)
    requires AllDigits(body) && IsDigit(e) && IsDigit(f)
    requires CheckDigitOk(body + [e]) && CheckDigitOk(body + [f])
    ensures e == f
  {
    assert (body + [e])[..|body|] == body;
    assert (body + [f])[..|body|] == body;
  }

  /** Swapping two adjacent digits changes the weighted sum by their difference. */
  lemma SwapDifference(x: string, a: char, b: char, y: string)
    requires AllDigits(x) && AllDigits(y) && IsDigit(a) && IsDigit(b)
    ensures AllDigits(x + [a, b] + y) && AllDigits(x + [b, a] + y)
    ensures WeightedSum(x + [a, b] + y) - WeightedSum(x + [b, a] + y) == DigitValue(a) - DigitValue(b)
  {
    var p, q := [a, b] + y, [b, a] + y;
    assert x + [a, b] + y == x + p && x + [b, a] + y == x + q;
    WeightedSumAppend(x, p);
    WeightedSumAppend(x, q);
    WeightedSumAppend([a, b], y);
    WeightedSumAppend([b, a], y);
    assert [a, b][1..] == [b] && [b, a][1..] == [a];
    assert [b][1..] == [] && [a][1..] == [];
  }

  /** Swapping two adjacent, different digits of the body always breaks the check digit. */
  lemma TranspositionDetected(x: string, a: char, b: char, y: string, c: char)
    requires AllDigits(x) && AllDigits(y) && IsDigit(a) && IsDigit(b) && IsDigit(c) && a != b
    requires AllDigits(x + [a, b] + y + [c]) && CheckDigitOk(x + [a, b] + y + [c])
    ensures AllDigits(x + [b, a] + y + [c]) && !CheckDigitOk(x + [b, a] + y + [c])
  {
    var u, w := x + [a, b] + y, x + [b, a] + y;
    SwapDifference(x, a, b, y);
    assert (u + [c])[..|u|] == u;
    assert (w + [c])[..|w|] == w;
    assert (u + [c])[|u|] == c && (w + [c])[|w|] == c;
    assert DigitValue(a) != DigitValue(b);
    Mod10Differs(WeightedSum(u), WeightedSum(w));
  }

  /** Two numbers that differ by one to nine have different last digits. */
  lemma Mod10Differs(m: int, n: int)
    requires 0 < m - n < 10 || 0 < n - m < 10
    ensures m % 10 != n % 10
  {
  }

  /** Surrounding white space does not change the normalised form. */
  lemma NormalizeIgnoresPadding(s: string, pad1: string, pad2: string)
    requires forall i :: 0 <= i < |pad1| ==> IsSpace(pad1[i])
    requires forall i :: 0 <= i < |pad2| ==> IsSpace(pad2[i])
    ensures NormalizeCas(Text(pad1 + s + pad2)) == NormalizeCas(Text(s))
  {
    MissingIgnoresPadding(s, pad1, pad2);
    StripPadding(s, pad1, pad2);
  }
}
