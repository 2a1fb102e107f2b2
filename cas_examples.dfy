/** The CAS cases of the project's unit tests, as lemmas about the model. */
module CasExamples {
  import opened Strings
  import opened Cells
  import opened Cas

  /** The validity of a CAS-shaped string is decided by its digits' check digit. */
  lemma ValidityOfPattern(t: string)
    requires CasPattern(t)
    ensures AllDigits(Digits(t)) && |Digits(t)| >= 5
    ensures IsValidCasSpec(Text(t)) == CheckDigitOk(Digits(t))
  {
    assert Digits(t) == RemoveChar(t, '-') && |Digits(t)| == |t| - 2 by {
      PatternDigits(t);
    }
    PatternEnds(t);
    DigitEnds(t);
  }

  /** A seven-character number `ab-cd-e` is valid exactly when `abcd` checks to `e`. */
  lemma ValidityOf7(t: string)
    requires |t| == 7 && AllDigits(t[..2]) && t[2] == '-' && AllDigits(t[3..5]) && t[5] == '-' && IsDigit(t[6])
    ensures AllDigits([t[0], t[1], t[3], t[4]])
    ensures IsValidCasSpec(Text(t)) == (WeightedSum([t[0], t[1], t[3], t[4]]) % 10 == DigitValue(t[6]))
  {
    assert CasPattern(t);
    ValidityOfPattern(t);
    PatternDigits(t);
    var d := Digits(t);
    assert d == t[..2] + t[3..5] + t[6..];
    assert d[..|d| - 1] == [t[0], t[1], t[3], t[4]];
  }

  lemma Shape7(t: string)
    requires |t| == 7 && IsDigit(t[0]) && IsDigit(t[1]) && t[2] == '-' && IsDigit(t[3]) && IsDigit(t[4])
    requires t[5] == '-' && IsDigit(t[6])
    ensures AllDigits(t[..2]) && AllDigits(t[3..5])
  {
  }

  lemma Valid7(t: string)
    requires |t| == 7 && IsDigit(t[0]) && IsDigit(t[1]) && t[2] == '-' && IsDigit(t[3]) && IsDigit(t[4])
    requires t[5] == '-' && IsDigit(t[6])
    requires WeightedSum([t[0], t[1], t[3], t[4]]) % 10 == DigitValue(t[6])
    ensures IsValidCasSpec(Text(t))
  {
    Shape7(t);
    ValidityOf7(t);
  }

  lemma Invalid7(t: string)
    requires |t| == 7 && IsDigit(t[0]) && IsDigit(t[1]) && t[2] == '-' && IsDigit(t[3]) && IsDigit(t[4])
    requires t[5] == '-' && IsDigit(t[6])
    requires WeightedSum([t[0], t[1], t[3], t[4]]) % 10 != DigitValue(t[6])
    ensures !IsValidCasSpec(Text(t))
  {
    Shape7(t);
    ValidityOf7(t);
  }

  lemma Sum7143()
    ensures WeightedSum("7143") == 42
  {
    assert "7143"[1..] == "143" && "143"[1..] == "43" && "43"[1..] == "3" && "3"[1..] == [];
  }

  lemma Sum6764()
    ensures WeightedSum("6764") == 61
  {
    assert "6764"[1..] == "764" && "764"[1..] == "64" && "64"[1..] == "4" && "4"[1..] == [];
  }

  /** Benzene's number 71-43-2 is valid. */
  lemma BenzeneValid()
    ensures IsValidCasSpec(Text("71-43-2"))
  {
    Sum7143();
    Valid7("71-43-2");
  }

  /** 71-43-3 fails the check digit. */
  lemma BenzeneTypoInvalid()
    ensures !IsValidCasSpec(Text("71-43-3"))
  {
    Sum7143();
    Invalid7("71-43-3");
  }

  /** Acetone's number 67-64-1 is valid and already normal. */
  lemma AcetoneIsNormal()
    ensures IsValidCasSpec(Text("67-64-1"))
    ensures NormalizeCas(Text("67-64-1")) == Some("67-64-1")
  {
    Sum6764();
    Valid7("67-64-1");
    ValidIsItsOwnNormal("67-64-1");
  }

  /** A valid number without surrounding space is its own normal form. */
  lemma ValidIsItsOwnNormal(t: string)
    requires IsValidCasSpec(Text(t)) && |t| > 0 && IsDigit(t[0]) && IsDigit(t[|t| - 1])
    ensures NormalizeCas(Text(t)) == Some(t)
  {
    ValidCasIsNormal(t);
    DigitEndsStripped(t);
  }

  /** Inputs with the same five or more digits normalise alike, whatever separates them. */
  lemma SameDigitsSameNormal(s: string, s': string)
    requires !IsMissing(Text(s)) && !IsMissing(Text(s'))
    requires Digits(s) == Digits(s') && |Digits(s)| >= 5
    ensures NormalizeCas(Text(s)) == NormalizeCas(Text(s'))
  {
    NormalizeRegroups(s);
    NormalizeRegroups(s');
  }

  /** The digits 6, 7, 6, 4, 1 with any two non-digit separators. */
  lemma {:induction false} DigitsWithSeparators(p: string, q: string)
    requires forall i :: 0 <= i < |p| ==> !IsDigit(p[i])
    requires forall i :: 0 <= i < |q| ==> !IsDigit(q[i])
    ensures Digits("67" + p + "64" + q + "1") == "67641"
  {
    var s := "67" + p + "64" + q + "1";
    assert s == "67" + (p + ("64" + (q + "1")));
    DigitsAppend("67", p + ("64" + (q + "1")));
    DigitsAppend(p, "64" + (q + "1"));
    DigitsAppend("64", q + "1");
    DigitsAppend(q, "1");
    DigitsOfNonDigits(p);
    DigitsOfNonDigits(q);
    assert Digits("67") == "67" by { assert "67"[1..] == "7"; }
    assert Digits("64") == "64" by { assert "64"[1..] == "4"; }
  }

  /** "67641" normalises to "67-64-1". */
  lemma AcetoneUndashed()
    ensures NormalizeCas(Text("67641")) == Some("67-64-1")
  {
    AcetoneSeparated([], []);
    assert "67" + [] + "64" + [] + "1" == "67641";
  }

  /** "67–64–1" (en dashes), "67_64_1", "67/64/1": any non-digit separators give "67-64-1". */
  lemma AcetoneSeparated(p: string, q: string)
    requires forall i :: 0 <= i < |p| ==> !IsDigit(p[i])
    requires forall i :: 0 <= i < |q| ==> !IsDigit(q[i])
    ensures NormalizeCas(Text("67" + p + "64" + q + "1")) == Some("67-64-1")
  {
    var s := "67" + p + "64" + q + "1";
    AcetoneDigits(s, p, q);
    AcetoneDigits("67-64-1", "-", "-");
    assert s[0] == '6';
    DigitEndsPresent(s);
    AcetoneIsNormal();
    SameDigitsSameNormal(s, "67-64-1");
  }

  /** "  67-64-1  " normalises to "67-64-1". */
  lemma AcetonePadded(pad1: string, pad2: string)
    requires forall i :: 0 <= i < |pad1| ==> IsSpace(pad1[i])
    requires forall i :: 0 <= i < |pad2| ==> IsSpace(pad2[i])
    ensures NormalizeCas(Text(pad1 + "67-64-1" + pad2)) == Some("67-64-1")
  {
    AcetoneIsNormal();
    NormalizeIgnoresPadding("67-64-1", pad1, pad2);
  }

  lemma AcetoneDigits(s: string, p: string, q: string)
    requires s == "67" + p + "64" + q + "1"
    requires forall i :: 0 <= i < |p| ==> !IsDigit(p[i])
    requires forall i :: 0 <= i < |q| ==> !IsDigit(q[i])
    ensures Digits(s) == "67641"
  {
    DigitsWithSeparators(p, q);
  }

  /** Fewer than five digits are returned with their separators normalised: "12-3" stays. */
  lemma ShortNumberKept()
    ensures NormalizeCas(Text("12-3")) == Some("12-3")
  {
    var c := "12-3";
    assert DashNormal(c) by {
      assert forall i :: 0 <= i < |c| ==> c[i] in "123-";
    }
    assert Digits(c) == "123" by {
      assert c[1..] == "2-3" && c[1..][1..] == "-3" && c[1..][1..][1..] == "3";
    }
    NormalizeDashNormal(c);
  }

  /** None and the empty string normalise to None. */
  lemma MissingNormalizesToNone()
    ensures NormalizeCas(Absent) == None
    ensures NormalizeCas(Text("")) == None
  {
  }
}
