/** `UnifiedChemicalValidator`: the object whose methods run the lookups, build the verdicts
    and mark duplicates, updating its fields as they go. Each method is proved to leave the
    object as the corresponding function of its previous state says. */
module ChemValidator {
  import opened Strings
  import opened Cells
  import opened Cas
  import opened Schema
  import opened PubChem
  import opened Verdicts
  import opened Reconcile
  import opened Duplicates
  import opened Workflow

  class Validator {
    /** The scripted PubChem service. */
    const search: nat -> SearchOutcome
    const fetch: nat -> FetchOutcome

    var validationResults: seq<Verdict>
    var smilesRetrievalMode: bool
    var lastError: Option<string>
    var lastErrorKind: Option<ErrorKind>
    /** Every search and every structure fetch made so far, in order. */
    var searches: seq<Request>
    var fetches: seq<string>

    /** The lookup state held in the fields. */
    function State(): Tracker
      reads this
    {
      Tracker(lastError, lastErrorKind, searches, fetches)
    }

    constructor(search: nat -> SearchOutcome, fetch: nat -> FetchOutcome)
      ensures this.search == search && this.fetch == fetch
      ensures validationResults == [] && !smilesRetrievalMode
      ensures State() == Tracker(None, None, [], [])
    {
      this.search := search;
      this.fetch := fetch;
      validationResults := [];
      smilesRetrievalMode := false;
      lastError := None;
      lastErrorKind := None;
      searches := [];
      fetches := [];
    }

    /** `identify_columns`: one scan over the labels keeping the first of each kind, then
        the retrieval mode, set only when the name and CAS columns were both found. */
    method IdentifyColumns(labels: seq<string>) returns (r: Result<Columns>)
      modifies this
      ensures r == DetectColumns(labels)
      ensures smilesRetrievalMode == if r.Success? then RetrievalMode(r.value) else old(smilesRetrievalMode)
      ensures validationResults == old(validationResults) && State() == old(State())
    {
      var nameCol, casCol, smilesCol := ScanLabels(labels);
      if nameCol.None? || casCol.None? {
        return Failure(MissingColumnsError);
      }
      smilesRetrievalMode := smilesCol.None?;
      return Success(Columns(nameCol.value, casCol.value, smilesCol));
    }

    /** The scan of `identify_columns`: the position of the first label of each kind. */
    static method ScanLabels(labels: seq<string>) returns (nameCol: Option<nat>, casCol: Option<nat>, smilesCol: Option<nat>)
      ensures nameCol == FirstWhere(labels, IsNameLabel)
      ensures casCol == FirstWhere(labels, IsCasLabel)
      ensures smilesCol == FirstWhere(labels, IsSmilesLabel)
    {
      nameCol, casCol, smilesCol := None, None, None;
      for i := 0 to |labels|
        invariant nameCol == FirstWhere(labels[..i], IsNameLabel)
        invariant casCol == FirstWhere(labels[..i], IsCasLabel)
        invariant smilesCol == FirstWhere(labels[..i], IsSmilesLabel)
      {
        FirstWhereNext(labels, i, IsNameLabel);
        FirstWhereNext(labels, i, IsCasLabel);
        FirstWhereNext(labels, i, IsSmilesLabel);
        var col := Lower(labels[i]);
        if nameCol.None? && Contains(col, "name") {
          nameCol := Some(i);
        }
        if casCol.None? && Contains(col, "cas") && !Contains(col, "cassia") {
          casCol := Some(i);
        }
        if smilesCol.None? && (Contains(col, "smiles") || col == "smile") {
          smilesCol := Some(i);
        }
      }
      assert labels[..|labels|] == labels;
    }

    /** `query_pubchem_cid_and_inchikey`: the first compound's CID and InChIKey, retrying on
        transient failures, recording the last error text and whether it was bad input. */
    method QueryPubChem(identifier: Cell, ns: Namespace) returns (ids: Ids)
      modifies this
      ensures Lookup(ids, State()) == Query(search, identifier, ns, MaxRetries, old(State()))
      ensures validationResults == old(validationResults) && smilesRetrievalMode == old(smilesRetrievalMode)
    {
      if !Truthy(identifier) {
        return NoIds;
      }
      lastError := None;
      lastErrorKind := None;
      var req := Request(Display(identifier), ns);
      ghost var goal := SearchLoop(search, req, 0, MaxRetries, State());
      var attempt := 0;
      while attempt < MaxRetries
        invariant SearchLoop(search, req, attempt, MaxRetries, State()) == goal
        invariant validationResults == old(validationResults) && smilesRetrievalMode == old(smilesRetrievalMode)
        decreases MaxRetries - attempt
      {
        var outcome := search(|searches|);
        searches := searches + [req];
        match outcome
        case Compounds(hits) =>
          if hits != [] {
            return Ids(hits[0].cid, hits[0].inchikey);
          }
          return NoIds;
        case SearchRaised(typeName, message) =>
          lastError := Some(ErrorText(typeName, message));
          if IsBadInput(message) {
            lastErrorKind := Some(BadInput);
          }
          if IsTransient(message) && attempt < MaxRetries - 1 {
            attempt := attempt + 1;
          } else {
            return NoIds;
          }
      }
      return NoIds;
    }

    /** `get_smiles_from_pubchem`: the structure of a compound, retrying on transient failures. */
    method GetSmiles(cid: Option<string>) returns (smiles: Option<string>)
      modifies this
      ensures Fetch(smiles, State()) == FetchSmiles(fetch, cid, MaxRetries, old(State()))
      ensures validationResults == old(validationResults) && smilesRetrievalMode == old(smilesRetrievalMode)
    {
      if !Present(cid) {
        return None;
      }
      lastError := None;
      ghost var goal := FetchLoop(fetch, cid.value, 0, MaxRetries, State());
      var attempt := 0;
      while attempt < MaxRetries
        invariant FetchLoop(fetch, cid.value, attempt, MaxRetries, State()) == goal
        invariant validationResults == old(validationResults) && smilesRetrievalMode == old(smilesRetrievalMode)
        decreases MaxRetries - attempt
      {
        var outcome := fetch(|fetches|);
        fetches := fetches + [cid.value];
        match outcome
        case Fetched(s) =>
          return s;
        case FetchRaised(typeName, message) =>
          lastError := Some(ErrorText(typeName, message));
          if IsTransient(message) && attempt < MaxRetries - 1 {
            attempt := attempt + 1;
          } else {
            return None;
          }
      }
      return None;
    }

    /** `retrieve_smiles`: look the row up by name and by CAS number (again without hyphens
        when that finds nothing) and fetch the structure only when both give the same CID. */
    method RetrieveSmiles(name: Cell, cas: Cell)
      returns (smiles: Option<string>, cidByName: Option<string>, cidByCas: Option<string>, reason: Option<Reason>)
      modifies this
      ensures Retrieval(smiles, cidByName, cidByCas, reason, State())
              == Reconcile.RetrieveSmiles(search, fetch, name, cas, MaxRetries, old(State()))
      ensures validationResults == old(validationResults) && smilesRetrievalMode == old(smilesRetrievalMode)
    {
      var byName := QueryPubChem(name, ByName);
      cidByName := byName.cid;
      var casNormalized := NormalizeCas(cas);
      var byCas := QueryPubChem(ToCell(casNormalized), ByName);
      if !Present(byCas.cid) && Present(casNormalized) {
        byCas := QueryPubChem(Text(RemoveChar(casNormalized.value, '-')), ByName);
      }
      cidByCas := byCas.cid;
      if Present(cidByName) && Present(cidByCas) {
        if cidByName == cidByCas {
          smiles := GetSmiles(cidByName);
          if Present(smiles) {
            reason := None;
          } else {
            smiles, reason := None, Some(ComplexChemicalNoSmiles);
          }
        } else {
          smiles, reason := None, Some(PubchemDiscordance);
        }
      } else {
        smiles, reason := None, Some(IdentifierNotFound);
      }
    }

    /** `validate_chemical`: trim, apply the identifier gates, back-fill the structure in
        retrieval mode, check the CAS number, run the three lookups and decide. */
    method ValidateChemical(rowNumber: int, name: Cell, cas: Cell, smiles: Cell) returns (result: Verdict)
      modifies this
      ensures Validation(result, State())
              == Validate(search, fetch, smilesRetrievalMode, rowNumber, name, cas, smiles, MaxRetries, old(State()))
      ensures validationResults == old(validationResults) && smilesRetrievalMode == old(smilesRetrievalMode)
    {
      result := Initial(rowNumber, name, cas, smiles);
      var nm := TrimCell(name);
      var sm := TrimCell(smiles);
      result := result.(name := nm, smiles := sm);
      var nameOk := Truthy(nm) && Strip(Display(nm)) != [];
      var casOk := !IsMissing(cas);
      var smilesOk := !IsMissing(sm);
      if IsMissing(nm) {
        nameOk := false;
      }
      if smilesRetrievalMode {
        if !(nameOk && casOk) {
          result := Reject(result, InsufficientIdentifiers);
          return;
        }
      } else {
        if !(smilesOk && (nameOk || casOk)) {
          result := Reject(result, InsufficientIdentifiers);
          return;
        }
      }
      if smilesRetrievalMode && !smilesOk {
        var retrieved, cidName, cidCas, rejection := RetrieveSmiles(nm, cas);
        if Present(retrieved) {
          sm := Text(retrieved.value);
          result := result.(smiles := sm, smilesSource := Some(FromPubchem));
        } else {
          result := result.(status := Rejected, rejectionReason := rejection, cidByName := cidName, cidByCas := cidCas);
          return;
        }
      }
      result := Check(result, nm, cas, sm);
    }

    /** The rest of `validate_chemical` once a structure is in hand: normalise and check the
        CAS number, look the three identifiers up, reject a SMILES PubChem calls malformed,
        and decide by consensus. */
    method Check(v: Verdict, name: Cell, cas: Cell, smiles: Cell) returns (result: Verdict)
      requires v.pubchemError.None?
      modifies this
      ensures Validation(result, State()) == Resolve(search, v, name, cas, smiles, MaxRetries, old(State()))
      ensures validationResults == old(validationResults) && smilesRetrievalMode == old(smilesRetrievalMode)
    {
      var casNormalized := NormalizeCas(cas);
      result := v.(cas := ToCell(casNormalized));
      if !IsMissing(cas) && Present(casNormalized) {
        var valid := IsValidCas(ToCell(casNormalized));
        if !valid {
          result := Reject(result, InvalidCas);
          return;
        }
      }
      var byName, byCas, bySmiles, errors := LookUpAll(name, casNormalized, smiles);
      result := Conclude(result, byName, byCas, bySmiles, errors);
    }

    /** The end of `validate_chemical` once the lookups are done: record the name and CAS
        results, reject a SMILES that PubChem called malformed, else record the SMILES
        result and the joined errors and decide by consensus. */
    method Conclude(v: Verdict, byName: Ids, byCas: Ids, bySmiles: Ids, errors: seq<string>) returns (result: Verdict)
      requires v.pubchemError.None?
      ensures Validation(result, State()) == Finish(v, Lookups(byName, byCas, bySmiles, errors, State()))
    {
      result := v.(cidByName := byName.cid, inchikeyByName := byName.inchikey,
                   cidByCas := byCas.cid, inchikeyByCas := byCas.inchikey);
      if bySmiles.cid.None? && lastErrorKind == Some(BadInput) {
        result := Reject(result, InvalidSmiles).(cidBySmiles := None, inchikeyBySmiles := None);
        if Present(lastError) {
          result := result.(pubchemError := Some(Join(errors)));
        }
        return;
      }
      result := result.(cidBySmiles := bySmiles.cid, inchikeyBySmiles := bySmiles.inchikey);
      if errors != [] {
        result := result.(pubchemError := Some(Join(errors)));
      }
      result := Analyze(result, byName, byCas, bySmiles, errors != []);
    }

    /** The three lookups of `validate_chemical`, collecting `tag=error` for each lookup that
        leaves an error text behind. */
    method LookUpAll(name: Cell, casNormalized: Option<string>, smiles: Cell)
      returns (byName: Ids, byCas: Ids, bySmiles: Ids, errors: seq<string>)
      modifies this
      ensures Lookups(byName, byCas, bySmiles, errors, State())
              == RunLookups(search, name, casNormalized, smiles, MaxRetries, old(State()))
      ensures validationResults == old(validationResults) && smilesRetrievalMode == old(smilesRetrievalMode)
    {
      errors := [];
      byName := QueryPubChem(name, ByName);
      if Present(lastError) {
        errors := errors + ["name=" + lastError.value];
      }
      byCas, errors := LookUpCas(casNormalized, errors);
      bySmiles := QueryPubChem(smiles, BySmiles);
      if Present(lastError) {
        errors := errors + ["smiles=" + lastError.value];
      }
    }

    /** The CAS lookup of `validate_chemical`: the normalised number, and again without
        hyphens when that finds no CID, tagging the error text each attempt leaves. */
    method LookUpCas(casNormalized: Option<string>, earlier: seq<string>) returns (byCas: Ids, errors: seq<string>)
      modifies this
      ensures var cs := SearchCas(search, casNormalized, MaxRetries, old(State()));
        var e := Tagged(earlier, "cas=", cs.first.after.lastError);
        byCas == cs.last.ids && State() == cs.last.after
        && errors == if cs.retried then Tagged(e, "cas_no_dash=", cs.last.after.lastError) else e
      ensures validationResults == old(validationResults) && smilesRetrievalMode == old(smilesRetrievalMode)
    {
      errors := earlier;
      byCas := QueryPubChem(ToCell(casNormalized), ByName);
      if Present(lastError) {
        errors := errors + ["cas=" + lastError.value];
      }
      if !Present(byCas.cid) && Present(casNormalized) {
        byCas := QueryPubChem(Text(RemoveChar(casNormalized.value, '-')), ByName);
        if Present(lastError) {
          errors := errors + ["cas_no_dash=" + lastError.value];
        }
      }
    }

    /** The final analysis of `validate_chemical`: count the CIDs found and compare them. */
    static method Analyze(v: Verdict, byName: Ids, byCas: Ids, bySmiles: Ids, anyError: bool) returns (result: Verdict)
      ensures result == Decide(v, Consensus(byName, byCas, bySmiles, anyError))
    {
      var found: set<string> := {};
      var numFound := 0;
      if Present(byName.cid) {
        found, numFound := found + {byName.cid.value}, numFound + 1;
      }
      if Present(byCas.cid) {
        found, numFound := found + {byCas.cid.value}, numFound + 1;
      }
      if Present(bySmiles.cid) {
        found, numFound := found + {bySmiles.cid.value}, numFound + 1;
      }
      result := v;
      if numFound == 3 {
        if byName.cid == byCas.cid && byCas.cid == bySmiles.cid {
          var key := Or(Or(byName.inchikey, byCas.inchikey), bySmiles.inchikey);
          result := result.(status := Validated, rejectionReason := None, validatedCid := byName.cid,
                            validatedInchikey := key, validatedCanonicalInchikey14 := None);
          if Present(key) {
            result := result.(validatedCanonicalInchikey14 := Some(Take(key.value, 14)));
          }
        } else {
          result := result.(status := Rejected, rejectionReason := Some(PubchemDiscordance), validatedCid := None,
                            validatedInchikey := None, validatedCanonicalInchikey14 := None);
        }
      } else if numFound == 2 {
        if |found| == 1 {
          result := result.(status := Rejected, rejectionReason := Some(IdentifierNotFound), validatedCid := None,
                            validatedInchikey := None, validatedCanonicalInchikey14 := None);
        } else {
          result := result.(status := Rejected, rejectionReason := Some(IdentifierNotFoundAndPubchemDiscordance),
                            validatedCid := None, validatedInchikey := None, validatedCanonicalInchikey14 := None);
        }
      } else {
        result := result.(status := Rejected, validatedCid := None, validatedInchikey := None,
                          validatedCanonicalInchikey14 := None);
        if anyError {
          result := result.(rejectionReason := Some(PubchemQueryFailed));
        } else {
          result := result.(rejectionReason := Some(IdentifierNotFound));
        }
      }
    }

    /** Group positions by key in first-occurrence order, as `setdefault(key, []).append(...)` does. */
    static method GroupByKey(keys: seq<Option<string>>) returns (order: seq<string>, groups: map<string, seq<nat>>)
      ensures Grouped(keys, |keys|, order, groups)
    {
      order, groups := [], map[];
      var i := 0;
      while i < |keys|
        invariant Grouped(keys, i, order, groups)
      {
        if keys[i].Some? {
          var k := keys[i].value;
          GroupedSome(keys, i, order, groups);
          if k !in groups {
            order := order + [k];
          }
          groups := groups[k := (if k in groups then groups[k] else []) + [i]];
        } else {
          GroupedNone(keys, i, order, groups);
        }
        i := i + 1;
      }
    }

    /** Mark the members of one group, in order: the first keeps its place, the rest are marked. */
    method MarkGroup(pass: Pass, members: seq<nat>, groupNum: nat)
      requires |members| > 0 && forall x :: 0 <= x < |members| ==> members[x] < |validationResults|
      requires forall a, b :: 0 <= a < b < |members| ==> members[a] < members[b]
      modifies this
      ensures validationResults == MarkMembers(pass, old(validationResults), members, groupNum)
      ensures State() == old(State()) && smilesRetrievalMode == old(smilesRetrievalMode)
    {
      var m := 0;
      while m < |members|
        invariant m <= |members| && |validationResults| == |old(validationResults)|
        invariant forall i :: 0 <= i < |validationResults| ==>
          validationResults[i] == (if i in members[..m] then Mark(pass, old(validationResults)[i], Role(groupNum, i == members[0]))
                                   else old(validationResults)[i])
        invariant State() == old(State()) && smilesRetrievalMode == old(smilesRetrievalMode)
      {
        var idx := members[m];
        assert idx !in members[..m];
        validationResults := validationResults[idx := Mark(pass, validationResults[idx], Role(groupNum, m == 0))];
        assert members[..m + 1] == members[..m] + [idx];
        m := m + 1;
      }
      assert members[..m] == members;
    }

    /** `check_exact_duplicates`: among validated verdicts with a truthy InChIKey, keep the
        first of each shared key and reject the rest as exact duplicates. */
    method CheckExactDuplicates() returns (done: bool)
      modifies this
      ensures done && validationResults == Apply(Exact, old(validationResults))
      ensures State() == old(State()) && smilesRetrievalMode == old(smilesRetrievalMode)
    {
      MarkDuplicates(Exact);
      return true;
    }

    /** `check_stereoisomer_duplicates`: among verdicts not rejected, with a truthy
        fourteen-character key, keep the first of each shared key and mark the rest. */
    method CheckStereoisomerDuplicates() returns (done: bool)
      modifies this
      ensures done && validationResults == Apply(Stereo, old(validationResults))
      ensures State() == old(State()) && smilesRetrievalMode == old(smilesRetrievalMode)
    {
      MarkDuplicates(Stereo);
      return true;
    }

    /** `validate_csv` from the column detection on: one verdict per row appended in order,
        the exact pass, the stereo pass, and whether nothing was rejected. */
    method ValidateCsv(labels: seq<string>, rows: seq<Row>) returns (ok: bool)
      requires forall r :: 0 <= r < |rows| ==> |rows[r].cells| == |labels|
      modifies this
      ensures Run(ok, validationResults, smilesRetrievalMode, State())
              == Workflow.ValidateCsv(search, fetch, labels, rows, old(smilesRetrievalMode), old(validationResults), old(State()))
    {
      var columns := IdentifyColumns(labels);
      if columns.Failure? {
        return false;
      }
      var c := columns.value;
      assert forall r :: 0 <= r < |rows| ==> Fits(c, rows[r]);
      ValidateEach(c, rows);
      var _ := CheckExactDuplicates();
      var _ := CheckStereoisomerDuplicates();
      var rejected := CountRejected();
      ok := rejected == 0;
    }

    /** The loop over the rows of `validate_csv`: validate each and append its verdict. */
    method ValidateEach(c: Columns, rows: seq<Row>)
      requires forall r :: 0 <= r < |rows| ==> Fits(c, rows[r])
      modifies this
      ensures var b := ValidateRows(search, fetch, smilesRetrievalMode, c, rows, old(State()));
        validationResults == old(validationResults) + b.verdicts && State() == b.after
      ensures smilesRetrievalMode == old(smilesRetrievalMode)
    {
      ghost var goal := ValidateRows(search, fetch, smilesRetrievalMode, c, rows, State());
      var todo := rows;
      while todo != []
        invariant forall r :: 0 <= r < |todo| ==> Fits(c, todo[r])
        invariant smilesRetrievalMode == old(smilesRetrievalMode)
        invariant var rest := ValidateRows(search, fetch, smilesRetrievalMode, c, todo, State());
          validationResults + rest.verdicts == old(validationResults) + goal.verdicts && rest.after == goal.after
        decreases |todo|
      {
        ValidateRow(c, todo);
        todo := todo[1..];
      }
    }

    /** One pass of that loop: read the first row's cells (the name and SMILES trimmed),
        validate them under the row's index plus one, and append the verdict. */
    method ValidateRow(c: Columns, todo: seq<Row>)
      requires todo != [] && forall r :: 0 <= r < |todo| ==> Fits(c, todo[r])
      modifies this
      ensures var before := ValidateRows(search, fetch, smilesRetrievalMode, c, todo, old(State()));
        var now := ValidateRows(search, fetch, smilesRetrievalMode, c, todo[1..], State());
        validationResults + now.verdicts == old(validationResults) + before.verdicts && now.after == before.after
      ensures smilesRetrievalMode == old(smilesRetrievalMode)
    {
      var nameValue := NameOf(c, todo[0]);
      var casValue := CasOf(c, todo[0]);
      var smilesValue := SmilesOf(c, todo[0]);
      ghost var t := State();
      var result := ValidateChemical(todo[0].index + 1, nameValue, casValue, smilesValue);
      ghost var v := Validation(result, State());
      RowsCons(search, fetch, smilesRetrievalMode, c, todo, t);
      ghost var rest := ValidateRows(search, fetch, smilesRetrievalMode, c, todo[1..], v.after);
      ghost var earlier := validationResults;
      validationResults := validationResults + [result];
      assert State() == v.after;
      assert earlier + [result] + rest.verdicts == earlier + ([result] + rest.verdicts);
    }

    /** The size of the summary's list of rejected verdicts. */
    method CountRejected() returns (n: nat)
      ensures n == Rejections(validationResults)
    {
      n := 0;
      for i := 0 to |validationResults|
        invariant n == Rejections(validationResults[..i])
      {
        assert validationResults[..i + 1][..i] == validationResults[..i];
        if validationResults[i].status == Rejected {
          n := n + 1;
        }
      }
      assert validationResults[..|validationResults|] == validationResults;
    }

    /** The shared body of the two duplicate passes: number each group of two or more from 1
        in first-occurrence order, and mark its members. */
    method MarkDuplicates(pass: Pass)
      modifies this
      ensures validationResults == Apply(pass, old(validationResults))
      ensures State() == old(State()) && smilesRetrievalMode == old(smilesRetrievalMode)
    {
      var keys := Keys(pass, validationResults);
      var order, groups := GroupByKey(keys);
      GroupedAll(keys, order, groups);
      MarkGroups(pass, keys, order, groups);
      StageDone(pass, old(validationResults), keys);
    }

    /** The loop over the groups, in first-occurrence order. */
    method MarkGroups(pass: Pass, keys: seq<Option<string>>, order: seq<string>, groups: map<string, seq<nat>>)
      requires |keys| == |validationResults| && order == Order(keys)
      requires forall q :: 0 <= q < |order| ==> order[q] in groups && groups[order[q]] == Occ(keys, order[q])
      modifies this
      ensures validationResults == Stage(pass, old(validationResults), keys, |order|)
      ensures State() == old(State()) && smilesRetrievalMode == old(smilesRetrievalMode)
    {
      ghost var vs := validationResults;
      var groupNum := 1;
      for p := 0 to |order|
        invariant groupNum == 1 + MultiCount(keys, order, p)
        invariant validationResults == Stage(pass, vs, keys, p)
        invariant State() == old(State()) && smilesRetrievalMode == old(smilesRetrievalMode)
      {
        groupNum := MarkTurn(pass, vs, keys, order, groups, p, groupNum);
      }
    }

    /** One turn of that loop: mark the `p`-th key's group when it has two or more members,
        and move the group number on past it. */
    method MarkTurn(pass: Pass, ghost vs: seq<Verdict>, keys: seq<Option<string>>, order: seq<string>,
                    groups: map<string, seq<nat>>, p: nat, groupNum: nat) returns (next: nat)
      requires |keys| == |vs| && order == Order(keys) && p < |order|
      requires order[p] in groups && groups[order[p]] == Occ(keys, order[p])
      requires groupNum == 1 + MultiCount(keys, order, p) && validationResults == Stage(pass, vs, keys, p)
      modifies this
      ensures next == 1 + MultiCount(keys, order, p + 1) && validationResults == Stage(pass, vs, keys, p + 1)
      ensures State() == old(State()) && smilesRetrievalMode == old(smilesRetrievalMode)
    {
      var members := groups[order[p]];
      ghost var before := validationResults;
      if |members| > 1 {
        OccIncreasing(keys, order[p]);
        MarkGroup(pass, members, groupNum);
      }
      StageNext(pass, vs, keys, p, members, groupNum, before, validationResults);
      MultiCountNext(keys, p);
      next := if |members| > 1 then groupNum + 1 else groupNum;
    }
  }

  /** `order` and `groups` hold the keys of the first `n` positions and their members. */
  ghost predicate Grouped(keys: seq<Option<string>>, n: nat, order: seq<string>, groups: map<string, seq<nat>>) {
    n <= |keys| && order == OrderUpTo(keys, n)
    && (forall k :: k in groups <==> k in order)
    && (forall k :: k in groups ==> groups[k] == OccUpTo(keys, k, n))
  }

  lemma GroupedNew(keys: seq<Option<string>>, i: nat, order: seq<string>, groups: map<string, seq<nat>>)
    requires i < |keys| && Grouped(keys, i, order, groups) && keys[i].Some? && keys[i].value !in groups
    ensures Grouped(keys, i + 1, order + [keys[i].value], groups[keys[i].value := [i]])
  {
    var k := keys[i].value;
    OccEmpty(keys, k, i);
    assert OccUpTo(keys, k, i + 1) == [i];
  }

  lemma GroupedOld(keys: seq<Option<string>>, i: nat, order: seq<string>, groups: map<string, seq<nat>>)
    requires i < |keys| && Grouped(keys, i, order, groups) && keys[i].Some? && keys[i].value in groups
    ensures Grouped(keys, i + 1, order, groups[keys[i].value := groups[keys[i].value] + [i]])
  {
  }

  /** `groups.setdefault(k, []).append(i)`, with `order` recording first insertions. */
  lemma GroupedSome(keys: seq<Option<string>>, i: nat, order: seq<string>, groups: map<string, seq<nat>>)
    requires i < |keys| && Grouped(keys, i, order, groups) && keys[i].Some?
    ensures var k := keys[i].value;
      Grouped(keys, i + 1, if k in groups then order else order + [k],
              groups[k := (if k in groups then groups[k] else []) + [i]])
  {
    if keys[i].value in groups {
      GroupedOld(keys, i, order, groups);
    } else {
      GroupedNew(keys, i, order, groups);
    }
  }

  lemma GroupedNone(keys: seq<Option<string>>, i: nat, order: seq<string>, groups: map<string, seq<nat>>)
    requires i < |keys| && Grouped(keys, i, order, groups) && keys[i].None?
    ensures Grouped(keys, i + 1, order, groups)
  {
  }

  lemma GroupedAll(keys: seq<Option<string>>, order: seq<string>, groups: map<string, seq<nat>>)
    requires Grouped(keys, |keys|, order, groups)
    ensures order == Order(keys)
    ensures forall q :: 0 <= q < |order| ==> order[q] in groups && groups[order[q]] == Occ(keys, order[q])
    ensures forall k :: k in groups ==> k in order
  {
  }

  /** One group marked: its members get their roles, every other position is left alone. */
  ghost function MarkMembers(pass: Pass, s: seq<Verdict>, members: seq<nat>, groupNum: nat): (r: seq<Verdict>)
    requires |members| > 0
    ensures |r| == |s|
  {
    seq(|s|, i requires 0 <= i < |s| =>
      if i in members then Mark(pass, s[i], Role(groupNum, i == members[0])) else s[i])
  }

  /** What turn `p` of the loop over the groups does to the list: mark the members of the
      `p`-th key's group when it has two or more. */
  ghost function Turn(pass: Pass, keys: seq<Option<string>>, p: nat, prev: seq<Verdict>): (s: seq<Verdict>)
    requires p < |Order(keys)|
    ensures |s| == |prev|
  {
    var members := Occ(keys, Order(keys)[p]);
    if |members| > 1 then MarkMembers(pass, prev, members, 1 + MultiCount(keys, Order(keys), p))
    else prev
  }

  /** The list after the loop has handled the first `p` keys of the order. */
  ghost function Stage(pass: Pass, vs: seq<Verdict>, keys: seq<Option<string>>, p: nat): (s: seq<Verdict>)
    requires p <= |Order(keys)|
    ensures |s| == |vs|
  {
    if p == 0 then vs else Turn(pass, keys, p - 1, Stage(pass, vs, keys, p - 1))
  }

  lemma StageSucc(pass: Pass, vs: seq<Verdict>, keys: seq<Option<string>>, p: nat)
    requires p < |Order(keys)|
    ensures Stage(pass, vs, keys, p + 1) == Turn(pass, keys, p, Stage(pass, vs, keys, p))
  {
  }

  /** One turn of the loop over the groups moves from one stage to the next. */
  lemma StageNext(pass: Pass, vs: seq<Verdict>, keys: seq<Option<string>>, p: nat, members: seq<nat>, groupNum: nat,
                  before: seq<Verdict>, after: seq<Verdict>)
    requires p < |Order(keys)| && before == Stage(pass, vs, keys, p)
    requires members == Occ(keys, Order(keys)[p]) && groupNum == 1 + MultiCount(keys, Order(keys), p)
    requires after == if |members| > 1 then MarkMembers(pass, before, members, groupNum) else before
    ensures after == Stage(pass, vs, keys, p + 1)
  {
    StageSucc(pass, vs, keys, p);
  }

  /** The group number moves on exactly past a group of two or more. */
  lemma MultiCountNext(keys: seq<Option<string>>, p: nat)
    requires p < |Order(keys)|
    ensures MultiCount(keys, Order(keys), p + 1)
            == MultiCount(keys, Order(keys), p) + if |Occ(keys, Order(keys)[p])| > 1 then 1 else 0
  {
  }

  /** The positions of a group are increasing. */
  lemma OccIncreasing(keys: seq<Option<string>>, k: string)
    ensures forall a, b :: 0 <= a < b < |Occ(keys, k)| ==> Occ(keys, k)[a] < Occ(keys, k)[b]
    ensures forall x :: 0 <= x < |Occ(keys, k)| ==> Occ(keys, k)[x] < |keys|
  {
  }

  /** One position part-way through a pass: marked exactly when its group comes among the first `p`. */
  ghost function Partial(pass: Pass, vs: seq<Verdict>, keys: seq<Option<string>>, p: nat, i: nat): Verdict
    requires |keys| == |vs| && i < |vs|
  {
    match RoleOf(keys, i)
    case None => vs[i]
    case Some(role) =>
      assert keys[i].value in Order(keys);
      if Pos(Order(keys), keys[i].value) < p then Mark(pass, vs[i], role) else vs[i]
  }

  /** What step `p` does to the verdict `v` at position `i`. */
  ghost function StepOf(pass: Pass, keys: seq<Option<string>>, p: nat, i: nat, v: Verdict): Verdict
    requires p < |Order(keys)|
  {
    var members := Occ(keys, Order(keys)[p]);
    if |members| > 1 && i in members then Mark(pass, v, Role(1 + MultiCount(keys, Order(keys), p), i == members[0]))
    else v
  }

  lemma StageAtStep(pass: Pass, vs: seq<Verdict>, keys: seq<Option<string>>, p: nat, i: nat)
    requires |keys| == |vs| && p < |Order(keys)| && i < |vs|
    ensures Stage(pass, vs, keys, p + 1)[i] == StepOf(pass, keys, p, i, Stage(pass, vs, keys, p)[i])
  {
    StageSucc(pass, vs, keys, p);
  }

  lemma PartialStep(pass: Pass, vs: seq<Verdict>, keys: seq<Option<string>>, p: nat, i: nat)
    requires keys == Keys(pass, vs) && p < |Order(keys)| && i < |vs|
    ensures Partial(pass, vs, keys, p + 1, i) == StepOf(pass, keys, p, i, Partial(pass, vs, keys, p, i))
  {
    PosOfDistinct(Order(keys), p);
    var members := Occ(keys, Order(keys)[p]);
    if |members| > 1 && i in members {
      InGroup(pass, vs, keys, p, i);
    } else {
      OutsideGroup(pass, vs, keys, p, i);
    }
  }

  /** Each stage agrees with `Partial` at every position. */
  lemma {:induction false} StageAt(pass: Pass, vs: seq<Verdict>, keys: seq<Option<string>>, p: nat, i: nat)
    requires keys == Keys(pass, vs) && p <= |Order(keys)| && i < |vs|
    ensures Stage(pass, vs, keys, p)[i] == Partial(pass, vs, keys, p, i)
  {
    if p > 0 {
      var q := p - 1;
      StageAt(pass, vs, keys, q, i);
      StageAtStep(pass, vs, keys, q, i);
      PartialStep(pass, vs, keys, q, i);
      assert q + 1 == p;
    }
  }

  lemma InGroup(pass: Pass, vs: seq<Verdict>, keys: seq<Option<string>>, p: nat, i: nat)
    requires keys == Keys(pass, vs) && p < |Order(keys)| && i < |vs|
    requires Pos(Order(keys), Order(keys)[p]) == p
    requires var members := Occ(keys, Order(keys)[p]); |members| > 1 && i in members
    ensures var members := Occ(keys, Order(keys)[p]);
      Mark(pass, Partial(pass, vs, keys, p, i), Role(1 + MultiCount(keys, Order(keys), p), i == members[0]))
      == Partial(pass, vs, keys, p + 1, i)
  {
  }

  lemma OutsideGroup(pass: Pass, vs: seq<Verdict>, keys: seq<Option<string>>, p: nat, i: nat)
    requires keys == Keys(pass, vs) && p < |Order(keys)| && i < |vs|
    requires Pos(Order(keys), Order(keys)[p]) == p
    requires |Occ(keys, Order(keys)[p])| <= 1 || i !in Occ(keys, Order(keys)[p])
    ensures Partial(pass, vs, keys, p + 1, i) == Partial(pass, vs, keys, p, i)
  {
  }

  /** After the last key every group is marked: the list is the pass's result. */
  lemma StageDone(pass: Pass, vs: seq<Verdict>, keys: seq<Option<string>>)
    requires keys == Keys(pass, vs)
    ensures Stage(pass, vs, keys, |Order(keys)|) == Apply(pass, vs)
  {
    forall i | 0 <= i < |vs| ensures Stage(pass, vs, keys, |Order(keys)|)[i] == Apply(pass, vs)[i] {
      StageAt(pass, vs, keys, |Order(keys)|, i);
    }
  }
}
