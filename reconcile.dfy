/** One row's verdict: the gates, the retrieval-mode back-fill (`retrieve_smiles`), the three
    lookups and the consensus step of `validate_chemical`, as functions threading the
    lookup state. */
module Reconcile {
  import opened Strings
  import opened Cells
  import opened Cas
  import opened PubChem
  import opened Verdicts

  /** `name_ok` as computed: the trimmed name is truthy, its `str()` is not blank, and it
      is not a missing value. */
  predicate NameOk(name: Cell) {
    Truthy(name) && Strip(Display(name)) != [] && !IsMissing(name)
  }

  /** The first gate: retrieval mode needs name and CAS; full mode needs the structure and
      name or CAS. */
  predicate Sufficient(retrievalMode: bool, nameOk: bool, casOk: bool, smilesOk: bool) {
    if retrievalMode then nameOk && casOk else smilesOk && (nameOk || casOk)
  }

  /** The CAS search: the normalised number, then, when that found no CID and the normalised
      form is truthy, the same number without hyphens. */
  datatype CasSearch = CasSearch(first: Lookup, retried: bool, last: Lookup)

  function SearchCas(search: nat -> SearchOutcome, norm: Option<string>, maxRetries: nat, t: Tracker): (r: CasSearch)
    ensures r.retried <==> !Present(r.first.ids.cid) && Present(norm)
    ensures !r.retried ==> r.last == r.first
  {
    var first := Query(search, ToCell(norm), ByName, maxRetries, t);
    if !Present(first.ids.cid) && Present(norm) then
      CasSearch(first, true, Query(search, Text(RemoveChar(norm.value, '-')), ByName, maxRetries, first.after))
    else CasSearch(first, false, first)
  }

  /** What `retrieve_smiles` returns: the structure, both CIDs, the rejection reason. */
  datatype Retrieval = Retrieval(smiles: Option<string>, cidByName: Option<string>, cidByCas: Option<string>,
                                 reason: Option<Reason>, after: Tracker)

  function RetrieveSmiles(search: nat -> SearchOutcome, fetch: nat -> FetchOutcome, name: Cell, cas: Cell,
                          maxRetries: nat, t: Tracker): Retrieval
  {
    var byName := Query(search, name, ByName, maxRetries, t);
    var byCas := SearchCas(search, NormalizeCas(cas), maxRetries, byName.after).last;
    var cn, cc := byName.ids.cid, byCas.ids.cid;
    if Present(cn) && Present(cc) then
      if cn == cc then
        var f := FetchSmiles(fetch, cn, maxRetries, byCas.after);
        if Present(f.smiles) then Retrieval(f.smiles, cn, cc, None, f.after)
        else Retrieval(None, cn, cc, Some(ComplexChemicalNoSmiles), f.after)
      else Retrieval(None, cn, cc, Some(PubchemDiscordance), byCas.after)
    else Retrieval(None, cn, cc, Some(IdentifierNotFound), byCas.after)
  }

  /** `tag=error` appended when an error text was left by the last lookup. */
  function Tagged(errors: seq<string>, tag: string, lastError: Option<string>): seq<string> {
    if Present(lastError) then errors + [tag + lastError.value] else errors
  }

  /** `"; ".join(parts)` */
  function Join(parts: seq<string>): string {
    if parts == [] then []
    else if |parts| == 1 then parts[0]
    else Join(parts[..|parts| - 1]) + "; " + parts[|parts| - 1]
  }

  /** The name, CAS and SMILES lookups, with the error texts they leave behind. */
  datatype Lookups = Lookups(byName: Ids, byCas: Ids, bySmiles: Ids, errors: seq<string>, after: Tracker)

  function RunLookups(search: nat -> SearchOutcome, name: Cell, norm: Option<string>, smiles: Cell,
                      maxRetries: nat, t: Tracker): Lookups
  {
    var qn := Query(search, name, ByName, maxRetries, t);
    var e1 := Tagged([], "name=", qn.after.lastError);
    var cs := SearchCas(search, norm, maxRetries, qn.after);
    var e2 := Tagged(e1, "cas=", cs.first.after.lastError);
    var e3 := if cs.retried then Tagged(e2, "cas_no_dash=", cs.last.after.lastError) else e2;
    var qs := Query(search, smiles, BySmiles, maxRetries, cs.last.after);
    Lookups(qn.ids, cs.last.ids, qs.ids, Tagged(e3, "smiles=", qs.after.lastError), qs.after)
  }

  /** `validate_chemical` together with the lookup state it leaves. */
  datatype Validation = Validation(verdict: Verdict, after: Tracker)

  function Validate(search: nat -> SearchOutcome, fetch: nat -> FetchOutcome, retrievalMode: bool,
                    rowNumber: int, name: Cell, cas: Cell, smiles: Cell, maxRetries: nat, t: Tracker): Validation
  {
    var nm, sm := TrimCell(name), TrimCell(smiles);
    var v := Initial(rowNumber, name, cas, smiles).(name := nm, smiles := sm);
    if !Sufficient(retrievalMode, NameOk(nm), !IsMissing(cas), !IsMissing(sm)) then
      Validation(Reject(v, InsufficientIdentifiers), t)
    else if retrievalMode && IsMissing(sm) then
      var rt := RetrieveSmiles(search, fetch, nm, cas, maxRetries, t);
      if Present(rt.smiles) then
        var got := Text(rt.smiles.value);
        Resolve(search, v.(smiles := got, smilesSource := Some(FromPubchem)), nm, cas, got, maxRetries, rt.after)
      else
        Validation(v.(status := Rejected, rejectionReason := rt.reason, cidByName := rt.cidByName,
                      cidByCas := rt.cidByCas), rt.after)
    else Resolve(search, v, nm, cas, sm, maxRetries, t)
  }

  /** Everything after the back-fill: the CAS gate, the lookups, the SMILES gate, the consensus. */
  function Resolve(search: nat -> SearchOutcome, v: Verdict, name: Cell, cas: Cell, smiles: Cell,
                   maxRetries: nat, t: Tracker): Validation
  {
    var norm := NormalizeCas(cas);
    var v1 := v.(cas := ToCell(norm));
    if !IsMissing(cas) && Present(norm) && !IsValidCasSpec(ToCell(norm)) then
      Validation(Reject(v1, InvalidCas), t)
    else Finish(v1, RunLookups(search, name, norm, smiles, maxRetries, t))
  }

  /** The record after the lookups: the SMILES gate (no SMILES CID and a bad-input error
      from that lookup), then the consensus step. */
  function Finish(v: Verdict, l: Lookups): Validation {
    var v2 := v.(cidByName := l.byName.cid, inchikeyByName := l.byName.inchikey,
                 cidByCas := l.byCas.cid, inchikeyByCas := l.byCas.inchikey);
    if l.bySmiles.cid.None? && l.after.lastErrorKind == Some(BadInput) then
      Validation(Reject(v2, InvalidSmiles).(cidBySmiles := None, inchikeyBySmiles := None,
                   pubchemError := if Present(l.after.lastError) then Some(Join(l.errors)) else None), l.after)
    else
      var v3 := v2.(cidBySmiles := l.bySmiles.cid, inchikeyBySmiles := l.bySmiles.inchikey,
                    pubchemError := if l.errors != [] then Some(Join(l.errors)) else None);
      Validation(Decide(v3, Consensus(l.byName, l.byCas, l.bySmiles, l.errors != [])), l.after)
  }

  // ---------------------------------------------------------------- lemmas: lookups

  /** `name_ok`, for all its steps, is exactly "the name is not missing". */
  lemma NameOkIsPresent(name: Cell)
    ensures NameOk(name) <==> !IsMissing(name)
  {
    if name.Text? && !IsMissing(name) {
      assert |Strip(name.s)| <= |name.s|;
    }
  }

  /** A lookup only appends to the search log and never fetches. */
  lemma QueryExtends(search: nat -> SearchOutcome, id: Cell, ns: Namespace, maxRetries: nat, t: Tracker)
    ensures var r := Query(search, id, ns, maxRetries, t);
      t.searches <= r.after.searches && r.after.fetches == t.fetches
  {
    QueryAttempts(search, id, ns, maxRetries, t);
  }

  lemma SearchCasExtends(search: nat -> SearchOutcome, norm: Option<string>, maxRetries: nat, t: Tracker)
    ensures var r := SearchCas(search, norm, maxRetries, t);
      t.searches <= r.last.after.searches && r.last.after.fetches == t.fetches
  {
    var first := Query(search, ToCell(norm), ByName, maxRetries, t);
    QueryExtends(search, ToCell(norm), ByName, maxRetries, t);
    if !Present(first.ids.cid) && Present(norm) {
      QueryExtends(search, Text(RemoveChar(norm.value, '-')), ByName, maxRetries, first.after);
    }
  }

  /** `retrieve_smiles`: a structure comes back only when name and CAS gave the same truthy
      CID and the fetch returned a truthy structure; otherwise the reason says which step failed.
      The structure is fetched only when the two CIDs agree. */
  lemma RetrievalOutcome(search: nat -> SearchOutcome, fetch: nat -> FetchOutcome, name: Cell, cas: Cell,
                         maxRetries: nat, t: Tracker)
    ensures var r := RetrieveSmiles(search, fetch, name, cas, maxRetries, t); var cn, cc := r.cidByName, r.cidByCas;
      (r.reason == None <==> Present(r.smiles))
      && (r.reason == None ==> Present(cn) && cn == cc)
      && (r.reason == Some(IdentifierNotFound) <==> !Present(cn) || !Present(cc))
      && (r.reason == Some(PubchemDiscordance) <==> Present(cn) && Present(cc) && cn != cc)
      && (r.reason == Some(ComplexChemicalNoSmiles) <==> Present(cn) && cn == cc && !Present(r.smiles))
      && (r.reason == None || r.reason == Some(IdentifierNotFound) || r.reason == Some(PubchemDiscordance)
          || r.reason == Some(ComplexChemicalNoSmiles))
      && t.searches <= r.after.searches
      && (|r.after.fetches| > |t.fetches| ==> Present(cn) && cn == cc)
  {
    var byName := Query(search, name, ByName, maxRetries, t);
    var byCas := SearchCas(search, NormalizeCas(cas), maxRetries, byName.after).last;
    QueryExtends(search, name, ByName, maxRetries, t);
    SearchCasExtends(search, NormalizeCas(cas), maxRetries, byName.after);
    var cn, cc := byName.ids.cid, byCas.ids.cid;
    if Present(cn) && Present(cc) && cn == cc {
      FetchKeepsSearches(fetch, cn, maxRetries, byCas.after);
    }
  }

  lemma FetchKeepsSearches(fetch: nat -> FetchOutcome, cid: Option<string>, maxRetries: nat, t: Tracker)
    ensures FetchSmiles(fetch, cid, maxRetries, t).after.searches == t.searches
  {
    if Present(cid) {
      FetchLoopLog(fetch, cid.value, 0, maxRetries, t.(lastError := None));
    }
  }

  /** `Tagged` only ever appends. */
  lemma TaggedExtends(errors: seq<string>, tag: string, lastError: Option<string>)
    ensures errors <= Tagged(errors, tag, lastError)
  {
  }

  /** A falsy name does not clear the error fields, so the previous lookup's error text is
      reported again as the name lookup's error. */
  lemma StaleNameError(search: nat -> SearchOutcome, name: Cell, norm: Option<string>, smiles: Cell,
                       maxRetries: nat, t: Tracker)
    requires !Truthy(name) && Present(t.lastError)
    ensures var l := RunLookups(search, name, norm, smiles, maxRetries, t);
      |l.errors| >= 1 && l.errors[0] == "name=" + t.lastError.value
  {
    QueryAttempts(search, name, ByName, maxRetries, t);
    var e1 := ["name=" + t.lastError.value];
    var cs := SearchCas(search, norm, maxRetries, t);
    var e2 := Tagged(e1, "cas=", cs.first.after.lastError);
    TaggedExtends(e1, "cas=", cs.first.after.lastError);
    var e3 := if cs.retried then Tagged(e2, "cas_no_dash=", cs.last.after.lastError) else e2;
    TaggedExtends(e2, "cas_no_dash=", cs.last.after.lastError);
    var qs := Query(search, smiles, BySmiles, maxRetries, cs.last.after);
    TaggedExtends(e3, "smiles=", qs.after.lastError);
  }

  /** The joined text starts with the first part. */
  lemma {:induction false} JoinStartsWithFirst(parts: seq<string>)
    requires parts != []
    ensures IsPrefix(parts[0], Join(parts))
  {
    if |parts| > 1 {
      JoinStartsWithFirst(parts[..|parts| - 1]);
    }
  }

  /** Lookups go by truthiness, not by `_is_missing`: a NaN name (missing, so `name_ok` is
      false) still reaches the name lookup, recorded here as the text "nan". */
  lemma NaNNameLookedUp(search: nat -> SearchOutcome, norm: Option<string>, smiles: Cell, maxRetries: nat, t: Tracker)
    requires maxRetries >= 1
    ensures !NameOk(NaN)
    ensures var l := RunLookups(search, NaN, norm, smiles, maxRetries, t);
      |l.after.searches| > |t.searches| && l.after.searches[|t.searches|] == Request("nan", ByName)
  {
    var qn := Query(search, NaN, ByName, maxRetries, t);
    QueryAttempts(search, NaN, ByName, maxRetries, t);
    assert qn.after.searches[|t.searches|] == Request("nan", ByName);
    var cs := SearchCas(search, norm, maxRetries, qn.after);
    SearchCasExtends(search, norm, maxRetries, qn.after);
    QueryExtends(search, smiles, BySmiles, maxRetries, cs.last.after);
  }

  // ---------------------------------------------------------------- lemmas: the verdict

  /** After the lookups every path ends settled, with a reason from the SMILES gate or
      the consensus table. */
  lemma FinishSettled(v: Verdict, l: Lookups)
    ensures var w := Finish(v, l).verdict;
      (w.status == Validated || w.status == Rejected)
      && (w.status == Rejected <==> w.rejectionReason.Some?)
      && w.rejectionReason != Some(InsufficientIdentifiers) && w.rejectionReason != Some(InvalidCas)
      && w.cas == v.cas && w.name == v.name && w.smiles == v.smiles && w.smilesSource == v.smilesSource
      && w.rowNumber == v.rowNumber && Finish(v, l).after == l.after
  {
    ConsensusTable(l.byName, l.byCas, l.bySmiles, l.errors != []);
  }

  /** A validated record has three equal truthy CIDs, the name's CID as its own, and the
      first truthy InChIKey of name, CAS and SMILES. */
  lemma FinishValidated(v: Verdict, l: Lookups)
    requires Finish(v, l).verdict.status == Validated
    ensures var w := Finish(v, l).verdict;
      Present(w.cidByName) && w.cidByName == w.cidByCas == w.cidBySmiles && w.validatedCid == w.cidByName
      && w.validatedInchikey == Or(Or(w.inchikeyByName, w.inchikeyByCas), w.inchikeyBySmiles)
      && w.rejectionReason.None?
  {
    ConsensusTable(l.byName, l.byCas, l.bySmiles, l.errors != []);
    ConsensusValidated(l.byName, l.byCas, l.bySmiles, l.errors != []);
  }

  /** `pubchem_query_failed` is decided by a single recorded error: when at most one CID
      was found, the reason is query-failed exactly when some error text was recorded. */
  lemma FinishQueryFailed(v: Verdict, l: Lookups)
    requires v.pubchemError.None?
    ensures var w := Finish(v, l).verdict;
      (w.rejectionReason == Some(PubchemQueryFailed) ==>
         w.pubchemError.Some? && AtMostOne(w.cidByName, w.cidByCas, w.cidBySmiles))
      && (w.rejectionReason == Some(IdentifierNotFound) && AtMostOne(w.cidByName, w.cidByCas, w.cidBySmiles) ==>
         w.pubchemError.None?)
  {
    ConsensusTable(l.byName, l.byCas, l.bySmiles, l.errors != []);
  }

  /** The CAS gate fires, before any lookup, exactly for a supplied CAS whose normalised
      form is not a valid registry number; every path from here on carries the normalised CAS. */
  lemma ResolveSettled(search: nat -> SearchOutcome, v: Verdict, name: Cell, cas: Cell, smiles: Cell,
                       maxRetries: nat, t: Tracker)
    ensures var r := Resolve(search, v, name, cas, smiles, maxRetries, t); var w := r.verdict;
      (w.status == Validated || w.status == Rejected)
      && (w.status == Rejected <==> w.rejectionReason.Some?)
      && w.rejectionReason != Some(InsufficientIdentifiers)
      && w.cas == ToCell(NormalizeCas(cas))
      && w.name == v.name && w.smiles == v.smiles && w.smilesSource == v.smilesSource && w.rowNumber == v.rowNumber
      && (w.rejectionReason == Some(InvalidCas) <==> !IsMissing(cas) && !IsValidCasSpec(ToCell(NormalizeCas(cas))))
      && (w.rejectionReason == Some(InvalidCas) ==> r.after == t)
  {
    NormalizeTruthy(cas);
    var norm := NormalizeCas(cas);
    var v1 := v.(cas := ToCell(norm));
    if !(!IsMissing(cas) && Present(norm) && !IsValidCasSpec(ToCell(norm))) {
      FinishSettled(v1, RunLookups(search, name, norm, smiles, maxRetries, t));
    }
  }

  /** The first gate decides before any lookup: the row is rejected as having insufficient
      identifiers exactly when the mode's requirement fails, and then nothing is searched,
      the lookup state is untouched and the CAS is kept as given. */
  lemma GateFirst(search: nat -> SearchOutcome, fetch: nat -> FetchOutcome, retrievalMode: bool,
                  rowNumber: int, name: Cell, cas: Cell, smiles: Cell, maxRetries: nat, t: Tracker)
    ensures var r := Validate(search, fetch, retrievalMode, rowNumber, name, cas, smiles, maxRetries, t);
      var enough := Sufficient(retrievalMode, !IsMissing(name), !IsMissing(cas), !IsMissing(smiles));
      (r.verdict.rejectionReason == Some(InsufficientIdentifiers) <==> !enough)
      && (!enough ==> r.after == t && r.verdict.cas == cas && r.verdict.status == Rejected)
  {
    var nm, sm := TrimCell(name), TrimCell(smiles);
    NameOkIsPresent(nm);
    Settled(search, fetch, retrievalMode, rowNumber, name, cas, smiles, maxRetries, t);
  }

  /** Every verdict ends validated or rejected (never unknown), with a reason exactly when rejected. */
  lemma Settled(search: nat -> SearchOutcome, fetch: nat -> FetchOutcome, retrievalMode: bool,
                rowNumber: int, name: Cell, cas: Cell, smiles: Cell, maxRetries: nat, t: Tracker)
    ensures var r := Validate(search, fetch, retrievalMode, rowNumber, name, cas, smiles, maxRetries, t);
      (r.verdict.status == Validated || r.verdict.status == Rejected)
      && (r.verdict.status == Rejected <==> r.verdict.rejectionReason.Some?)
      && r.verdict.rowNumber == rowNumber
      && (r.verdict.rejectionReason == Some(InsufficientIdentifiers) ==>
            !Sufficient(retrievalMode, NameOk(TrimCell(name)), !IsMissing(cas), !IsMissing(TrimCell(smiles))))
  {
    var nm, sm := TrimCell(name), TrimCell(smiles);
    var v := Initial(rowNumber, name, cas, smiles).(name := nm, smiles := sm);
    if Sufficient(retrievalMode, NameOk(nm), !IsMissing(cas), !IsMissing(sm)) {
      if retrievalMode && IsMissing(sm) {
        var rt := RetrieveSmiles(search, fetch, nm, cas, maxRetries, t);
        RetrievalOutcome(search, fetch, nm, cas, maxRetries, t);
        if Present(rt.smiles) {
          var got := Text(rt.smiles.value);
          ResolveSettled(search, v.(smiles := got, smilesSource := Some(FromPubchem)), nm, cas, got, maxRetries, rt.after);
        }
      } else {
        ResolveSettled(search, v, nm, cas, sm, maxRetries, t);
      }
    }
  }

  /** The structure comes from PubChem exactly in retrieval mode, for a row that passed the
      first gate without a structure, when the back-fill found one; the record then holds it. */
  lemma BackfillSource(search: nat -> SearchOutcome, fetch: nat -> FetchOutcome, retrievalMode: bool,
                       rowNumber: int, name: Cell, cas: Cell, smiles: Cell, maxRetries: nat, t: Tracker)
    ensures var r := Validate(search, fetch, retrievalMode, rowNumber, name, cas, smiles, maxRetries, t);
      var rt := RetrieveSmiles(search, fetch, TrimCell(name), cas, maxRetries, t);
      var filled := retrievalMode && Sufficient(retrievalMode, !IsMissing(name), !IsMissing(cas), !IsMissing(smiles))
                    && IsMissing(smiles) && Present(rt.smiles);
      (r.verdict.smilesSource == Some(FromPubchem) <==> filled)
      && (filled ==> r.verdict.smiles == Text(rt.smiles.value))
      && (r.verdict.smilesSource == Some(FromInput) <==> !IsMissing(smiles))
  {
    var nm, sm := TrimCell(name), TrimCell(smiles);
    NameOkIsPresent(nm);
    var v := Initial(rowNumber, name, cas, smiles).(name := nm, smiles := sm);
    if Sufficient(retrievalMode, NameOk(nm), !IsMissing(cas), !IsMissing(sm)) {
      if retrievalMode && IsMissing(sm) {
        var rt := RetrieveSmiles(search, fetch, nm, cas, maxRetries, t);
        if Present(rt.smiles) {
          var got := Text(rt.smiles.value);
          ResolveSettled(search, v.(smiles := got, smilesSource := Some(FromPubchem)), nm, cas, got, maxRetries, rt.after);
        }
      } else {
        ResolveSettled(search, v, nm, cas, sm, maxRetries, t);
      }
    }
  }

  /** The back-fill runs before the CAS gate: when it fails, the row is rejected with the
      back-fill's reason (never `invalid_cas`), keeps the CAS as given, and carries the two
      CIDs the back-fill found. */
  lemma BackfillBeforeCasGate(search: nat -> SearchOutcome, fetch: nat -> FetchOutcome,
                              rowNumber: int, name: Cell, cas: Cell, smiles: Cell, maxRetries: nat, t: Tracker)
    requires Sufficient(true, !IsMissing(name), !IsMissing(cas), !IsMissing(smiles)) && IsMissing(smiles)
    requires !Present(RetrieveSmiles(search, fetch, TrimCell(name), cas, maxRetries, t).smiles)
    ensures var r := Validate(search, fetch, true, rowNumber, name, cas, smiles, maxRetries, t);
      var rt := RetrieveSmiles(search, fetch, TrimCell(name), cas, maxRetries, t);
      r.verdict.status == Rejected && r.verdict.rejectionReason == rt.reason
      && rt.reason.Some? && rt.reason != Some(InvalidCas)
      && r.verdict.cas == cas && r.verdict.cidByName == rt.cidByName && r.verdict.cidByCas == rt.cidByCas
      && r.verdict.pubchemError.None? && r.after == rt.after
  {
    NameOkIsPresent(TrimCell(name));
    RetrievalOutcome(search, fetch, TrimCell(name), cas, maxRetries, t);
  }

  /** In full mode a row that passes the first gate is rejected as `invalid_cas`, with no
      lookup made, exactly when its CAS is supplied and its normalised form is not valid. */
  lemma FullModeCasGate(search: nat -> SearchOutcome, fetch: nat -> FetchOutcome,
                        rowNumber: int, name: Cell, cas: Cell, smiles: Cell, maxRetries: nat, t: Tracker)
    requires Sufficient(false, !IsMissing(name), !IsMissing(cas), !IsMissing(smiles))
    ensures var r := Validate(search, fetch, false, rowNumber, name, cas, smiles, maxRetries, t);
      (r.verdict.rejectionReason == Some(InvalidCas) <==> !IsMissing(cas) && !IsValidCasSpec(ToCell(NormalizeCas(cas))))
      && (r.verdict.rejectionReason == Some(InvalidCas) ==> r.after == t)
      && r.verdict.cas == ToCell(NormalizeCas(cas))
  {
    var nm, sm := TrimCell(name), TrimCell(smiles);
    NameOkIsPresent(nm);
    var v := Initial(rowNumber, name, cas, smiles).(name := nm, smiles := sm);
    ResolveSettled(search, v, nm, cas, sm, maxRetries, t);
  }

  /** A validated verdict has three equal truthy CIDs and the name's CID as its own. */
  lemma ValidatedAgree(search: nat -> SearchOutcome, fetch: nat -> FetchOutcome, retrievalMode: bool,
                       rowNumber: int, name: Cell, cas: Cell, smiles: Cell, maxRetries: nat, t: Tracker)
    requires Validate(search, fetch, retrievalMode, rowNumber, name, cas, smiles, maxRetries, t).verdict.status == Validated
    ensures var w := Validate(search, fetch, retrievalMode, rowNumber, name, cas, smiles, maxRetries, t).verdict;
      Present(w.cidByName) && w.cidByName == w.cidByCas == w.cidBySmiles && w.validatedCid == w.cidByName
      && w.validatedInchikey == Or(Or(w.inchikeyByName, w.inchikeyByCas), w.inchikeyBySmiles)
  {
    var nm, sm := TrimCell(name), TrimCell(smiles);
    var v := Initial(rowNumber, name, cas, smiles).(name := nm, smiles := sm);
    if Sufficient(retrievalMode, NameOk(nm), !IsMissing(cas), !IsMissing(sm)) {
      if retrievalMode && IsMissing(sm) {
        var rt := RetrieveSmiles(search, fetch, nm, cas, maxRetries, t);
        if Present(rt.smiles) {
          var got := Text(rt.smiles.value);
          ResolveValidated(search, v.(smiles := got, smilesSource := Some(FromPubchem)), nm, cas, got, maxRetries, rt.after);
        }
      } else {
        ResolveValidated(search, v, nm, cas, sm, maxRetries, t);
      }
    }
  }

  lemma ResolveValidated(search: nat -> SearchOutcome, v: Verdict, name: Cell, cas: Cell, smiles: Cell,
                         maxRetries: nat, t: Tracker)
    requires Resolve(search, v, name, cas, smiles, maxRetries, t).verdict.status == Validated
    ensures var w := Resolve(search, v, name, cas, smiles, maxRetries, t).verdict;
      Present(w.cidByName) && w.cidByName == w.cidByCas == w.cidBySmiles && w.validatedCid == w.cidByName
      && w.validatedInchikey == Or(Or(w.inchikeyByName, w.inchikeyByCas), w.inchikeyBySmiles)
  {
    var norm := NormalizeCas(cas);
    FinishValidated(v.(cas := ToCell(norm)), RunLookups(search, name, norm, smiles, maxRetries, t));
  }

  /** Unless the SMILES gate fires, the record's error text is the lookups' error texts joined by "; ". */
  lemma FinishErrors(v: Verdict, l: Lookups)
    ensures var w := Finish(v, l).verdict;
      w.rejectionReason != Some(InvalidSmiles) ==>
        w.pubchemError == if l.errors != [] then Some(Join(l.errors)) else None
  {
    ConsensusTable(l.byName, l.byCas, l.bySmiles, l.errors != []);
  }

  /** The SMILES gate. Once the CAS gate has let the row through, a truthy SMILES is rejected
      as `invalid_smiles` exactly when its own lookup found no CID and one of that lookup's
      attempts raised a bad-input error. Earlier lookups cannot trigger it, since the SMILES
      lookup clears the error kind first. The rejected record keeps the name and CAS ids,
      has no SMILES ids, and carries an error text exactly when the SMILES lookup left one,
      namely the lookups' error texts joined by "; " with the SMILES lookup's error last. */
  lemma SmilesGate(search: nat -> SearchOutcome, v: Verdict, name: Cell, cas: Cell, smiles: Cell,
                   maxRetries: nat, t: Tracker)
    requires Truthy(smiles) && maxRetries >= 1
    requires IsMissing(cas) || IsValidCasSpec(ToCell(NormalizeCas(cas)))
    ensures var norm := NormalizeCas(cas);
      var qn := Query(search, name, ByName, maxRetries, t);
      var cs := SearchCas(search, norm, maxRetries, qn.after);
      var u := cs.last.after;
      var qs := Query(search, smiles, BySmiles, maxRetries, u);
      Made(u, qs) >= 1 && var os := Tried(search, u, qs);
      var l := RunLookups(search, name, norm, smiles, maxRetries, t);
      var w := Resolve(search, v, name, cas, smiles, maxRetries, t).verdict;
      (w.rejectionReason == Some(InvalidSmiles) <==>
         qs.ids.cid.None? && exists k :: 0 <= k < |os| && BadRaise(os[k]))
      && (w.rejectionReason == Some(InvalidSmiles) ==>
            w.status == Rejected && w.cidBySmiles.None? && w.inchikeyBySmiles.None?
            && w.cidByName == qn.ids.cid && w.cidByCas == cs.last.ids.cid
            && (w.pubchemError.Some? <==> Present(qs.after.lastError))
            && (w.pubchemError.Some? ==>
                  w.pubchemError == Some(Join(l.errors))
                  && l.errors[|l.errors| - 1] == "smiles=" + qs.after.lastError.value))
  {
    var norm := NormalizeCas(cas);
    NormalizeTruthy(cas);
    var qn := Query(search, name, ByName, maxRetries, t);
    var cs := SearchCas(search, norm, maxRetries, qn.after);
    QueryKind(search, smiles, BySmiles, maxRetries, cs.last.after);
    var l := RunLookups(search, name, norm, smiles, maxRetries, t);
    ConsensusTable(l.byName, l.byCas, l.bySmiles, l.errors != []);
  }

  /** In full mode a row whose name is blank is not looked up by name, so the error text of
      the previous row's last lookup is reported again, first, under the `name=` tag. */
  lemma StaleErrorReported(search: nat -> SearchOutcome, fetch: nat -> FetchOutcome,
                           rowNumber: int, name: Cell, cas: Cell, smiles: Cell, maxRetries: nat, t: Tracker)
    requires !IsMissing(smiles) && !IsMissing(cas) && IsValidCasSpec(ToCell(NormalizeCas(cas)))
    requires !Truthy(TrimCell(name)) && Present(t.lastError)
    ensures var w := Validate(search, fetch, false, rowNumber, name, cas, smiles, maxRetries, t).verdict;
      w.rejectionReason != Some(InvalidSmiles) ==>
        w.pubchemError.Some? && IsPrefix("name=" + t.lastError.value, w.pubchemError.value)
  {
    var nm, sm := TrimCell(name), TrimCell(smiles);
    var v := Initial(rowNumber, name, cas, smiles).(name := nm, smiles := sm);
    var norm := NormalizeCas(cas);
    var l := RunLookups(search, nm, norm, sm, maxRetries, t);
    StaleNameError(search, nm, norm, sm, maxRetries, t);
    JoinStartsWithFirst(l.errors);
    FinishErrors(v.(cas := ToCell(norm)), l);
  }
}
