/** The run over a whole table (`validate_csv` from the column detection on): one verdict
    per row in table order, then the exact pass, then the stereo pass, and the answer
    "nothing was rejected". */
module Workflow {
  import opened Cells
  import opened Schema
  import opened PubChem
  import opened Verdicts
  import opened Reconcile
  import opened Duplicates

  /** A row that survived the empty-row filter: its index in the table and its cells in
      column order. */
  datatype Row = Row(index: nat, cells: seq<Cell>)

  /** The detected columns exist in the row. */
  predicate Fits(c: Columns, row: Row) {
    c.name < |row.cells| && c.cas < |row.cells| && (c.smiles.Some? ==> c.smiles.value < |row.cells|)
  }

  /** The name handed to `validate_chemical`: the cell, trimmed when it is a non-empty string. */
  function NameOf(c: Columns, row: Row): Cell
    requires Fits(c, row)
  {
    TrimCell(row.cells[c.name])
  }

  /** The CAS number handed on as it stands. */
  function CasOf(c: Columns, row: Row): Cell
    requires Fits(c, row)
  {
    row.cells[c.cas]
  }

  /** The structure handed on: the trimmed cell, or None when the table has no SMILES column. */
  function SmilesOf(c: Columns, row: Row): Cell
    requires Fits(c, row)
  {
    if c.smiles.Some? then TrimCell(row.cells[c.smiles.value]) else Absent
  }

  datatype Batch = Batch(verdicts: seq<Verdict>, after: Tracker)

  /** The verdicts of the rows in order, each numbered by its index plus one, the lookup
      state threaded from row to row. */
  function ValidateRows(search: nat -> SearchOutcome, fetch: nat -> FetchOutcome, retrievalMode: bool,
                        c: Columns, rows: seq<Row>, t: Tracker): (b: Batch)
    requires forall r :: 0 <= r < |rows| ==> Fits(c, rows[r])
    ensures |b.verdicts| == |rows|
  {
    if rows == [] then Batch([], t)
    else
      var first := Validate(search, fetch, retrievalMode, rows[0].index + 1,
                            NameOf(c, rows[0]), CasOf(c, rows[0]), SmilesOf(c, rows[0]), MaxRetries, t);
      var rest := ValidateRows(search, fetch, retrievalMode, c, rows[1..], first.after);
      Batch([first.verdict] + rest.verdicts, rest.after)
  }

  /** How many verdicts are rejected. */
  function Rejections(vs: seq<Verdict>): (n: nat)
    ensures n <= |vs|
  {
    if vs == [] then 0
    else Rejections(vs[..|vs| - 1]) + if vs[|vs| - 1].status == Rejected then 1 else 0
  }

  /** The validator's fields after a run, and the answer it returns. */
  datatype Run = Run(ok: bool, results: seq<Verdict>, retrievalMode: bool, after: Tracker)

  /** The run: a table without a name or CAS column is refused and nothing changes;
      otherwise the mode is set, the rows' verdicts are appended to the earlier results,
      both passes run over the whole list, and the answer is whether none is rejected. */
  function ValidateCsv(search: nat -> SearchOutcome, fetch: nat -> FetchOutcome, labels: seq<string>,
                       rows: seq<Row>, retrievalMode: bool, results: seq<Verdict>, t: Tracker): Run
    requires forall r :: 0 <= r < |rows| ==> |rows[r].cells| == |labels|
  {
    match DetectColumns(labels)
    case Failure(_) => Run(false, results, retrievalMode, t)
    case Success(c) =>
      var b := ValidateRows(search, fetch, RetrievalMode(c), c, rows, t);
      var marked := Apply(Stereo, Apply(Exact, results + b.verdicts));
      Run(Rejections(marked) == 0, marked, RetrievalMode(c), b.after)
  }

  // ---------------------------------------------------------------- lemmas

  /** The count is zero exactly when no verdict is rejected. */
  lemma {:induction false} NoRejections(vs: seq<Verdict>)
    ensures Rejections(vs) == 0 <==> forall i :: 0 <= i < |vs| ==> vs[i].status != Rejected
  {
    if vs != [] {
      var init := vs[..|vs| - 1];
      NoRejections(init);
      assert forall i :: 0 <= i < |init| ==> init[i] == vs[i];
    }
  }

  /** The first row's verdict, then the rest from the state it leaves. */
  lemma RowsCons(search: nat -> SearchOutcome, fetch: nat -> FetchOutcome, retrievalMode: bool,
                 c: Columns, rows: seq<Row>, t: Tracker)
    requires rows != [] && forall r :: 0 <= r < |rows| ==> Fits(c, rows[r])
    ensures var v := Validate(search, fetch, retrievalMode, rows[0].index + 1,
                              NameOf(c, rows[0]), CasOf(c, rows[0]), SmilesOf(c, rows[0]), MaxRetries, t);
      var rest := ValidateRows(search, fetch, retrievalMode, c, rows[1..], v.after);
      ValidateRows(search, fetch, retrievalMode, c, rows, t) == Batch([v.verdict] + rest.verdicts, rest.after)
  {
  }

  /** Each row's verdict is settled and carries the row's index plus one. */
  lemma {:induction false} RowsSettled(search: nat -> SearchOutcome, fetch: nat -> FetchOutcome, retrievalMode: bool,
                                       c: Columns, rows: seq<Row>, t: Tracker)
    requires forall r :: 0 <= r < |rows| ==> Fits(c, rows[r])
    ensures var b := ValidateRows(search, fetch, retrievalMode, c, rows, t);
      forall x :: 0 <= x < |rows| ==>
        b.verdicts[x].rowNumber == rows[x].index + 1
        && (b.verdicts[x].status == Validated || b.verdicts[x].status == Rejected)
  {
    if rows != [] {
      var first := Validate(search, fetch, retrievalMode, rows[0].index + 1,
                            NameOf(c, rows[0]), CasOf(c, rows[0]), SmilesOf(c, rows[0]), MaxRetries, t);
      Settled(search, fetch, retrievalMode, rows[0].index + 1,
              NameOf(c, rows[0]), CasOf(c, rows[0]), SmilesOf(c, rows[0]), MaxRetries, t);
      var rest := ValidateRows(search, fetch, retrievalMode, c, rows[1..], first.after);
      RowsSettled(search, fetch, retrievalMode, c, rows[1..], first.after);
      var b := ValidateRows(search, fetch, retrievalMode, c, rows, t);
      RowsCons(search, fetch, retrievalMode, c, rows, t);
      forall x | 0 <= x < |rows|
        ensures b.verdicts[x].rowNumber == rows[x].index + 1
        ensures b.verdicts[x].status == Validated || b.verdicts[x].status == Rejected
      {
        if x > 0 {
          assert b.verdicts[x] == rest.verdicts[x - 1] && rows[x] == rows[1..][x - 1];
        }
      }
    }
  }

  /** A pass leaves a status alone, or sets it to what the pass marks with. */
  lemma PassStatus(pass: Pass, vs: seq<Verdict>, i: nat)
    requires i < |vs|
    ensures var s := Apply(pass, vs)[i].status;
      s == vs[i].status || (pass == Exact && s == Rejected) || (pass == Stereo && s == StereoDuplicate)
    ensures Apply(pass, vs)[i].rowNumber == vs[i].rowNumber
  {
  }

  /** A table without a name or CAS column leaves every field as it was and answers false. */
  lemma CsvRefused(search: nat -> SearchOutcome, fetch: nat -> FetchOutcome, labels: seq<string>,
                   rows: seq<Row>, retrievalMode: bool, results: seq<Verdict>, t: Tracker)
    requires forall r :: 0 <= r < |rows| ==> |rows[r].cells| == |labels|
    requires (forall j :: 0 <= j < |labels| ==> !IsNameLabel(labels[j]))
             || (forall j :: 0 <= j < |labels| ==> !IsCasLabel(labels[j]))
    ensures ValidateCsv(search, fetch, labels, rows, retrievalMode, results, t) == Run(false, results, retrievalMode, t)
  {
  }

  /** Otherwise the mode follows the SMILES column, the list grows by one verdict per row,
      and the new verdicts follow the earlier ones in row order, numbered by index plus one. */
  lemma CsvShape(search: nat -> SearchOutcome, fetch: nat -> FetchOutcome, labels: seq<string>,
                 rows: seq<Row>, retrievalMode: bool, results: seq<Verdict>, t: Tracker)
    requires forall r :: 0 <= r < |rows| ==> |rows[r].cells| == |labels|
    requires DetectColumns(labels).Success?
    ensures var run := ValidateCsv(search, fetch, labels, rows, retrievalMode, results, t);
      run.retrievalMode == DetectColumns(labels).value.smiles.None?
      && |run.results| == |results| + |rows|
      && (forall x :: 0 <= x < |rows| ==> run.results[|results| + x].rowNumber == rows[x].index + 1)
  {
    var c := DetectColumns(labels).value;
    var b := ValidateRows(search, fetch, RetrievalMode(c), c, rows, t);
    RowsSettled(search, fetch, RetrievalMode(c), c, rows, t);
    var all := results + b.verdicts;
    forall x | 0 <= x < |rows|
      ensures Apply(Stereo, Apply(Exact, all))[|results| + x].rowNumber == rows[x].index + 1
    {
      assert all[|results| + x] == b.verdicts[x];
      PassStatus(Exact, all, |results| + x);
      PassStatus(Stereo, Apply(Exact, all), |results| + x);
    }
  }

  /** The answer is true exactly when the columns were found and, after both passes, no
      verdict in the list is rejected; then every row of this table ends validated or
      marked as a stereoisomer duplicate. */
  lemma CsvAnswer(search: nat -> SearchOutcome, fetch: nat -> FetchOutcome, labels: seq<string>,
                  rows: seq<Row>, retrievalMode: bool, results: seq<Verdict>, t: Tracker)
    requires forall r :: 0 <= r < |rows| ==> |rows[r].cells| == |labels|
    ensures var run := ValidateCsv(search, fetch, labels, rows, retrievalMode, results, t);
      (run.ok <==> DetectColumns(labels).Success?
                   && forall i :: 0 <= i < |run.results| ==> run.results[i].status != Rejected)
      && (run.ok ==> forall x :: |results| <= x < |run.results| ==>
            run.results[x].status == Validated || run.results[x].status == StereoDuplicate)
  {
    var run := ValidateCsv(search, fetch, labels, rows, retrievalMode, results, t);
    if DetectColumns(labels).Success? {
      var c := DetectColumns(labels).value;
      var b := ValidateRows(search, fetch, RetrievalMode(c), c, rows, t);
      RowsSettled(search, fetch, RetrievalMode(c), c, rows, t);
      var all := results + b.verdicts;
      NoRejections(run.results);
      forall x | |results| <= x < |all|
        ensures var s := Apply(Stereo, Apply(Exact, all))[x].status;
          s == Validated || s == Rejected || s == StereoDuplicate
      {
        assert all[x] == b.verdicts[x - |results|];
        PassStatus(Exact, all, x);
        PassStatus(Stereo, Apply(Exact, all), x);
      }
    }
  }
}
