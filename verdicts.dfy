/** The verdict record kept for each row, and the consensus table that turns the three
    lookups into a status (`validate_chemical`, the result dict and its final analysis). */
module Verdicts {
  import opened Strings
  import opened Cells
  import opened PubChem

  datatype Status = Unknown | Validated | Rejected | StereoDuplicate

  datatype Reason =
    | InsufficientIdentifiers
    | ComplexChemicalNoSmiles
    | PubchemDiscordance
    | IdentifierNotFound
    | InvalidCas
    | InvalidSmiles
    | IdentifierNotFoundAndPubchemDiscordance
    | PubchemQueryFailed
    | ExactDuplicate

  /** Where the row's structure came from: the input table or the back-fill. */
  datatype SmilesSource = FromInput | FromPubchem

  /** One row's result dict, field for field. */
  datatype Verdict = Verdict(
    rowNumber: int,
    name: Cell,
    cas: Cell,
    smiles: Cell,
    smilesSource: Option<SmilesSource>,
    cidByName: Option<string>,
    cidByCas: Option<string>,
    cidBySmiles: Option<string>,
    inchikeyByName: Option<string>,
    inchikeyByCas: Option<string>,
    inchikeyBySmiles: Option<string>,
    validatedCid: Option<string>,
    validatedInchikey: Option<string>,
    validatedCanonicalInchikey14: Option<string>,
    status: Status,
    rejectionReason: Option<Reason>,
    pubchemError: Option<string>,
    exactDuplicateGroup: Option<nat>,
    stereoDuplicateGroup: Option<nat>)

  /** The record as first built: the inputs as given, status unknown, everything else empty. */
  function Initial(rowNumber: int, name: Cell, cas: Cell, smiles: Cell): (v: Verdict)
    ensures v.status == Unknown && v.rejectionReason.None?
    ensures v.smilesSource == Some(FromInput) <==> !IsMissing(smiles)
  {
    Verdict(rowNumber, name, cas, smiles,
            if !IsMissing(smiles) then Some(FromInput) else None,
            None, None, None, None, None, None, None, None, None,
            Unknown, None, None, None, None)
  }

  /** A rejection with its reason. */
  function Reject(v: Verdict, reason: Reason): (r: Verdict)
    ensures r.status == Rejected && r.rejectionReason == Some(reason)
  {
    v.(status := Rejected, rejectionReason := Some(reason))
  }

  /** The part of the record the consensus step decides. */
  datatype Outcome = Outcome(status: Status, reason: Option<Reason>, cid: Option<string>,
                             inchikey: Option<string>, key14: Option<string>)

  /** `s[:n]` */
  function Take(s: string, n: nat): (r: string)
    ensures |r| == if |s| < n then |s| else n
    ensures IsPrefix(r, s)
  {
    if |s| < n then s else s[..n]
  }

  /** How many of the three CIDs are truthy. */
  function FoundCount(byName: Option<string>, byCas: Option<string>, bySmiles: Option<string>): nat {
    (if Present(byName) then 1 else 0) + (if Present(byCas) then 1 else 0) + (if Present(bySmiles) then 1 else 0)
  }

  /** The set of truthy CIDs among the three. */
  function FoundSet(byName: Option<string>, byCas: Option<string>, bySmiles: Option<string>): set<string> {
    (if Present(byName) then {byName.value} else {})
      + (if Present(byCas) then {byCas.value} else {})
      + (if Present(bySmiles) then {bySmiles.value} else {})
  }

  /** The final analysis of `validate_chemical`: count the truthy CIDs, then decide. */
  function Consensus(byName: Ids, byCas: Ids, bySmiles: Ids, anyError: bool): Outcome {
    var n := FoundCount(byName.cid, byCas.cid, bySmiles.cid);
    if n == 3 then
      if byName.cid == byCas.cid && byCas.cid == bySmiles.cid then
        var key := Or(Or(byName.inchikey, byCas.inchikey), bySmiles.inchikey);
        Outcome(Validated, None, byName.cid, key, if Present(key) then Some(Take(key.value, 14)) else None)
      else Outcome(Rejected, Some(PubchemDiscordance), None, None, None)
    else if n == 2 then
      if |FoundSet(byName.cid, byCas.cid, bySmiles.cid)| == 1 then Outcome(Rejected, Some(IdentifierNotFound), None, None, None)
      else Outcome(Rejected, Some(IdentifierNotFoundAndPubchemDiscordance), None, None, None)
    else Outcome(Rejected, Some(if anyError then PubchemQueryFailed else IdentifierNotFound), None, None, None)
  }

  /** The record after the consensus step. */
  function Decide(v: Verdict, o: Outcome): Verdict {
    v.(status := o.status, rejectionReason := o.reason, validatedCid := o.cid,
       validatedInchikey := o.inchikey, validatedCanonicalInchikey14 := o.key14)
  }

  // ---------------------------------------------------------------- the consensus table

  /** Exactly two of the three CIDs are truthy and they are equal. */
  predicate TwoAgree(a: Option<string>, b: Option<string>, c: Option<string>) {
    (Present(a) && Present(b) && !Present(c) && a == b)
    || (Present(a) && !Present(b) && Present(c) && a == c)
    || (!Present(a) && Present(b) && Present(c) && b == c)
  }

  /** Exactly two of the three CIDs are truthy and they differ. */
  predicate TwoDisagree(a: Option<string>, b: Option<string>, c: Option<string>) {
    (Present(a) && Present(b) && !Present(c) && a != b)
    || (Present(a) && !Present(b) && Present(c) && a != c)
    || (!Present(a) && Present(b) && Present(c) && b != c)
  }

  /** At most one of the three CIDs is truthy. */
  predicate AtMostOne(a: Option<string>, b: Option<string>, c: Option<string>) {
    (!Present(a) && !Present(b)) || (!Present(a) && !Present(c)) || (!Present(b) && !Present(c))
  }

  lemma FoundSetOfTwo(a: Option<string>, b: Option<string>, c: Option<string>)
    requires FoundCount(a, b, c) == 2
    ensures |FoundSet(a, b, c)| == 1 <==> TwoAgree(a, b, c)
  {
    if !Present(c) {
      assert FoundSet(a, b, c) == {a.value} + {b.value};
      SetOfTwo(a.value, b.value);
    } else if !Present(b) {
      assert FoundSet(a, b, c) == {a.value} + {c.value};
      SetOfTwo(a.value, c.value);
    } else {
      assert FoundSet(a, b, c) == {b.value} + {c.value};
      SetOfTwo(b.value, c.value);
    }
  }

  lemma SetOfTwo(x: string, y: string)
    ensures |{x} + {y}| == 1 <==> x == y
  {
    if x != y {
      assert {x} + {y} == {x, y};
    }
  }

  /** The whole table: each outcome, stated on the three CIDs alone. */
  lemma ConsensusTable(byName: Ids, byCas: Ids, bySmiles: Ids, anyError: bool)
    ensures var o := Consensus(byName, byCas, bySmiles, anyError); var a, b, c := byName.cid, byCas.cid, bySmiles.cid;
      (o.status == Validated <==> Present(a) && Present(b) && Present(c) && a == b == c)
      && (o.reason == Some(PubchemDiscordance) <==> Present(a) && Present(b) && Present(c) && !(a == b == c))
      && (o.reason == Some(IdentifierNotFound) <==> TwoAgree(a, b, c) || (AtMostOne(a, b, c) && !anyError))
      && (o.reason == Some(IdentifierNotFoundAndPubchemDiscordance) <==> TwoDisagree(a, b, c))
      && (o.reason == Some(PubchemQueryFailed) <==> AtMostOne(a, b, c) && anyError)
      && (o.status == Validated || o.status == Rejected)
      && (o.status == Rejected <==> o.reason.Some?)
  {
    var a, b, c := byName.cid, byCas.cid, bySmiles.cid;
    if FoundCount(a, b, c) == 2 {
      FoundSetOfTwo(a, b, c);
    }
  }

  /** A validated outcome carries the name CID, the first truthy InChIKey of name, CAS and
      SMILES (or the last one tried), and that key's first fourteen characters when it is truthy. */
  lemma ConsensusValidated(byName: Ids, byCas: Ids, bySmiles: Ids, anyError: bool)
    requires Consensus(byName, byCas, bySmiles, anyError).status == Validated
    ensures var o := Consensus(byName, byCas, bySmiles, anyError);
      o.cid == byName.cid && Present(o.cid) && o.reason.None?
      && o.inchikey == (if Present(byName.inchikey) then byName.inchikey
                        else if Present(byCas.inchikey) then byCas.inchikey
                        else bySmiles.inchikey)
      && (Present(o.inchikey) ==> o.key14.Some? && IsPrefix(o.key14.value, o.inchikey.value)
                                  && |o.key14.value| == if |o.inchikey.value| < 14 then |o.inchikey.value| else 14)
      && (!Present(o.inchikey) ==> o.key14.None?)
  {
  }

  /** Whether errors were recorded matters only when at most one CID was found. */
  lemma ErrorsMatterOnlyWhenLittleFound(byName: Ids, byCas: Ids, bySmiles: Ids)
    requires !AtMostOne(byName.cid, byCas.cid, bySmiles.cid)
    ensures Consensus(byName, byCas, bySmiles, true) == Consensus(byName, byCas, bySmiles, false)
  {
  }
}
