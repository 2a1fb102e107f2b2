/** Which columns of the input table hold the name, the CAS number and the SMILES
    (`identify_columns`). A table is its sequence of column labels. */
module Schema {
  import opened Strings
  import opened Cells

  datatype Result<T> = Success(value: T) | Failure(error: string)

  /** The positions of the columns chosen; `smiles` is None when the table has none. */
  datatype Columns = Columns(name: nat, cas: nat, smiles: Option<nat>)

  const MissingColumnsError := "Could not find Name or CAS columns"

  /** A column label whose lower-case form contains "name". */
  predicate IsNameLabel(col: string) {
    Contains(Lower(col), "name")
  }

  /** A column label whose lower-case form contains "cas" but not "cassia". */
  predicate IsCasLabel(col: string) {
    Contains(Lower(col), "cas") && !Contains(Lower(col), "cassia")
  }

  /** A column label whose lower-case form contains "smiles" or is exactly "smile". */
  predicate IsSmilesLabel(col: string) {
    Contains(Lower(col), "smiles") || Lower(col) == "smile"
  }

  /** The position of the first label that `p` accepts. */
  function FirstWhere(labels: seq<string>, p: string -> bool): (r: Option<nat>)
    ensures r.Some? ==> r.value < |labels| && p(labels[r.value])
    ensures r.Some? ==> forall j :: 0 <= j < r.value ==> !p(labels[j])
    ensures r.None? ==> forall j :: 0 <= j < |labels| ==> !p(labels[j])
  {
    if labels == [] then None
    else
      var init := labels[..|labels| - 1];
      match FirstWhere(init, p)
      case Some(i) => Some(i)
      case None => if p(labels[|labels| - 1]) then Some(|labels| - 1) else None
  }

  /** The columns `identify_columns` picks, or the error it raises when the name or
      the CAS column is missing. */
  function DetectColumns(labels: seq<string>): (r: Result<Columns>)
    ensures r.Failure? <==>
      (forall j :: 0 <= j < |labels| ==> !IsNameLabel(labels[j]))
      || (forall j :: 0 <= j < |labels| ==> !IsCasLabel(labels[j]))
    ensures r.Failure? ==> r.error == MissingColumnsError
    ensures r.Success? ==> r.value.name < |labels| && IsNameLabel(labels[r.value.name])
    ensures r.Success? ==> r.value.cas < |labels| && IsCasLabel(labels[r.value.cas])
    ensures r.Success? && r.value.smiles.Some? ==>
      r.value.smiles.value < |labels| && IsSmilesLabel(labels[r.value.smiles.value])
    ensures r.Success? && r.value.smiles.None? ==> forall j :: 0 <= j < |labels| ==> !IsSmilesLabel(labels[j])
  {
    var name := FirstWhere(labels, IsNameLabel);
    var cas := FirstWhere(labels, IsCasLabel);
    if name.None? || cas.None? then Failure(MissingColumnsError)
    else Success(Columns(name.value, cas.value, FirstWhere(labels, IsSmilesLabel)))
  }

  /** `smiles_retrieval_mode` after a successful detection: on exactly when no SMILES column exists. */
  predicate RetrievalMode(c: Columns) {
    c.smiles.None?
  }

  // ---------------------------------------------------------------- lemmas

  /** Each chosen column is the first one of its kind. */
  lemma DetectFirst(labels: seq<string>)
    requires DetectColumns(labels).Success?
    ensures var c := DetectColumns(labels).value;
      (forall j :: 0 <= j < c.name ==> !IsNameLabel(labels[j]))
      && (forall j :: 0 <= j < c.cas ==> !IsCasLabel(labels[j]))
      && (c.smiles.Some? ==> forall j :: 0 <= j < c.smiles.value ==> !IsSmilesLabel(labels[j]))
  {
  }

  /** The role tests ignore letter case. */
  lemma {:induction false} LabelsIgnoreCase(col: string)
    ensures IsNameLabel(Lower(col)) == IsNameLabel(col)
    ensures IsCasLabel(Lower(col)) == IsCasLabel(col)
    ensures IsSmilesLabel(Lower(col)) == IsSmilesLabel(col)
  {
    LowerIdempotent(col);
  }

  /** Columns after the first of each kind play no part: appending labels to a table
      whose detection succeeds changes nothing but, possibly, the SMILES column. */
  lemma {:induction false} FirstWhereExtend(labels: seq<string>, more: seq<string>, p: string -> bool)
    requires FirstWhere(labels, p).Some?
    ensures FirstWhere(labels + more, p) == FirstWhere(labels, p)
  {
    var i := FirstWhere(labels, p).value;
    assert (labels + more)[i] == labels[i];
  }

  lemma DetectExtend(labels: seq<string>, more: seq<string>)
    requires DetectColumns(labels).Success?
    ensures DetectColumns(labels + more).Success?
    ensures DetectColumns(labels + more).value.name == DetectColumns(labels).value.name
    ensures DetectColumns(labels + more).value.cas == DetectColumns(labels).value.cas
    ensures DetectColumns(labels).value.smiles.Some? ==>
      DetectColumns(labels + more).value.smiles == DetectColumns(labels).value.smiles
  {
    FirstWhereExtend(labels, more, IsNameLabel);
    FirstWhereExtend(labels, more, IsCasLabel);
    if FirstWhere(labels, IsSmilesLabel).Some? {
      FirstWhereExtend(labels, more, IsSmilesLabel);
    }
  }

  /** Scanning one more label: the first match so far stays, else this label if it matches. */
  lemma FirstWhereNext(labels: seq<string>, i: nat, p: string -> bool)
    requires i < |labels|
    ensures FirstWhere(labels[..i + 1], p)
            == if FirstWhere(labels[..i], p).Some? then FirstWhere(labels[..i], p)
               else if p(labels[i]) then Some(i) else None
  {
    assert labels[..i + 1][..i] == labels[..i];
  }

  /** A label containing "cassia" never serves as the CAS column, whatever else it contains. */
  lemma CassiaIsNotCas(col: string, i: nat)
    requires i + 6 <= |col| && Lower(col)[i..i + 6] == "cassia"
    ensures !IsCasLabel(col)
  {
    assert OccursAt(Lower(col), "cassia", i);
  }
}
