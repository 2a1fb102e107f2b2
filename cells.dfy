/** Values read from the input table, and when they count as absent (`_is_missing`). */
module Cells {
  import opened Strings

  datatype Option<+T> = None | Some(value: T)

  /** A table cell as the validator sees it: Python `None`, a float NaN (what pandas
      puts in an empty cell), or a string. */
  datatype Cell = Absent | NaN | Text(s: string)

  const MissingWords: set<string> := {"nan", "<na>", "none", "null"}

  /** `_is_missing`: None, NaN, a string that is empty once stripped, or one whose
      stripped lower-case form is a missing-value word. */
  predicate IsMissing(v: Cell) {
    match v
    case Absent => true
    case NaN => true
    case Text(s) => var t := Strip(s); t == [] || Lower(t) in MissingWords
  }

  /** Python truthiness of a cell: None and "" are falsy, NaN is truthy. */
  predicate Truthy(v: Cell) {
    match v
    case Absent => false
    case NaN => true
    case Text(s) => s != []
  }

  /** Python truthiness of an optional string. */
  predicate Present(o: Option<string>) {
    o.Some? && o.value != []
  }

  /** An optional string handed on where the source passes `Optional[str]`. */
  function ToCell(o: Option<string>): (v: Cell)
    ensures Truthy(v) == Present(o)
  {
    match o
    case None => Absent
    case Some(s) => Text(s)
  }

  /** `x or y` on optional strings. */
  function Or(x: Option<string>, y: Option<string>): (r: Option<string>)
    ensures Present(x) ==> r == x
    ensures !Present(x) ==> r == y
  {
    if Present(x) then x else y
  }

  /** `value.strip()` applied when the source trims a truthy string. */
  function TrimCell(v: Cell): (r: Cell)
    ensures IsMissing(r) == IsMissing(v)
    ensures r.Text? ==> Strip(r.s) == r.s
  {
    match v
    case Text(s) => TrimByIdempotent(s, IsSpace); if s != [] then Text(Strip(s)) else v
    case _ => v
  }

  // ---------------------------------------------------------------- lemmas

  /** Surrounding white space does not change whether a string counts as missing. */
  lemma MissingIgnoresPadding(s: string, pad1: string, pad2: string)
    requires forall i :: 0 <= i < |pad1| ==> IsSpace(pad1[i])
    requires forall i :: 0 <= i < |pad2| ==> IsSpace(pad2[i])
    ensures IsMissing(Text(pad1 + s + pad2)) == IsMissing(Text(s))
  {
    StripPadding(s, pad1, pad2);
  }

  /** Letter case does not change whether a string counts as missing. */
  lemma MissingIgnoresCase(s: string)
    ensures IsMissing(Text(Lower(s))) == IsMissing(Text(s))
  {
    StripLower(s);
    LowerIdempotent(Strip(s));
  }

  predicate HasDigit(w: string) {
    exists k :: 0 <= k < |w| && IsDigit(w[k])
  }

  /** A string holding a digit is never missing: "0" is a value. */
  lemma {:induction false} DigitIsNotMissing(s: string, i: nat)
    requires i < |s| && IsDigit(s[i])
    ensures !IsMissing(Text(s))
  {
    var j := KeptInTrim(s, IsSpace, i);
    var w := Lower(Strip(s));
    assert w[j] == s[i];
    assert HasDigit(w);
    NoMissingWordHasDigit();
  }

  lemma NoMissingWordHasDigit()
    ensures forall w :: w in MissingWords ==> !HasDigit(w)
  {
    forall w, k | w in MissingWords && 0 <= k < |w| ensures !IsDigit(w[k]) {
      assert w == "nan" || w == "<na>" || w == "none" || w == "null";
      assert k < 4;
      assert k == 0 || k == 1 || k == 2 || k == 3;
    }
  }

  lemma StripPadding(s: string, pad1: string, pad2: string)
    requires forall i :: 0 <= i < |pad1| ==> IsSpace(pad1[i])
    requires forall i :: 0 <= i < |pad2| ==> IsSpace(pad2[i])
    ensures Strip(pad1 + s + pad2) == Strip(s)
  {
    TrimPadding(s, pad1, pad2, IsSpace);
  }

  /** Lower-casing commutes with stripping (no space is an upper-case letter). */
  lemma StripLower(s: string)
    ensures Strip(Lower(s)) == Lower(Strip(s))
  {
    TrimLower(s, IsSpace);
  }

  /** Text that starts and ends with a digit is present, and stripping leaves it alone. */
  lemma DigitEnds(t: string)
    requires |t| > 0 && IsDigit(t[0]) && IsDigit(t[|t| - 1])
    ensures !IsMissing(Text(t)) && Strip(t) == t
  {
    DigitEndsPresent(t);
    DigitEndsStripped(t);
  }

  lemma DigitEndsPresent(t: string)
    requires |t| > 0 && IsDigit(t[0])
    ensures !IsMissing(Text(t))
  {
    DigitIsNotMissing(t, 0);
  }

  lemma DigitEndsStripped(t: string)
    requires |t| > 0 && IsDigit(t[0]) && IsDigit(t[|t| - 1])
    ensures Strip(t) == t
  {
    TrimByNoop(t, IsSpace);
  }
}
