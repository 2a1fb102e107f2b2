# chem-validator, modelled in Dafny

This project models the core of chem-validator, a tool that checks a table of chemicals
against PubChem. The core is the `UnifiedChemicalValidator` class in `src/validator.py`.
Each row gives a name, a CAS registry number and, optionally, a SMILES structure.

A row's verdict is built in these steps:

- normalise and check the CAS number (`normalize_cas`, `is_valid_cas`);
- find the table's columns and choose the mode (`identify_columns`);
- in retrieval mode, back-fill a missing structure from PubChem (`retrieve_smiles`);
- look the row up three times, by name, by CAS number and by SMILES, retrying transient failures (`query_pubchem_cid_and_inchikey`, `get_smiles_from_pubchem`);
- decide by consensus (`validate_chemical`).

After all rows, two passes mark exact duplicates and stereoisomer duplicates (`check_exact_duplicates`, `check_stereoisomer_duplicates`). `validate_csv` runs the whole table.

The model has two layers:

- **Value layer.** Pure functions over datatypes, with lemmas that state what the source promises:
  - `Cells`: table cells and `_is_missing`;
  - `Cas`: CAS numbers;
  - `Schema`: column detection;
  - `PubChem`: the lookups with retry;
  - `Verdicts`: the verdict record and the consensus table;
  - `Reconcile`: one row's verdict;
  - `Duplicates`: the duplicate passes;
  - `Workflow`: the run over a table.
- **Object layer.** `ChemValidator.Validator` is the validator object. Its fields are the ones the source updates in place:
  - `validationResults`;
  - `smilesRetrievalMode`;
  - `lastError` and `lastErrorKind` (the source's `_last_pubchem_error` and `_last_pubchem_error_kind`);
  - a log of every search and structure fetch made.

  Its methods keep the source's loops: the retry loops, the column scan, the row loop, the grouping by key and the marking of each group. Each method is proved to leave the object exactly as the value layer's function of its previous state says.

PubChem is not called. The service is a scripted oracle held by the object:

- the k-th search ever made gets the outcome `search(k)`;
- the k-th structure fetch gets the outcome `fetch(k)`.

An outcome is either a list of compounds, a structure, or an exception with a type name and a message. Every property holds for every script.

The model keeps these behaviours of the code as they are:

- A falsy identifier is not looked up and does not clear the error fields. The previous lookup's error text is then reported again under the new tag.
- An error text recorded on a transient attempt survives a later successful attempt.
- A bad-input message that also holds a transient phrase is retried.
- `pubchem_query_failed` is chosen whenever any error text was recorded and at most one CID was found, unless the SMILES lookup was rejected as bad input (then the reason is `invalid_smiles`).
- Lookups test truthiness, not `_is_missing`. A NaN name still reaches the lookup. The model records the identifier it was handed as the text `"nan"`.
- The structure is back-filled before the CAS gate. A failed back-fill rejects with its own reason. The first gate and a failed back-fill keep the CAS as given; every path past the back-fill carries the normalised CAS.
- Error texts from the back-fill's lookups are not reported.
- The fourteen-character key is `key[:14]`, so a shorter key is kept whole.
- Found CIDs are counted by truthiness.

Where the source's own documentation or naming says less than its code does, the model follows the code:

- The docstring of `query_pubchem_cid_and_inchikey` (src/validator.py:236) says it retries on HTTP 503 / ServerBusy errors. The code also retries any message holding "timeout" or "ssl", and a bad-input message holding one of these phrases is retried too (`Retries`, `BadInputCanBeRetried`).
- The field name `_last_pubchem_error` suggests the last attempt's error. The code keeps the text of an earlier transient failure after a later attempt succeeds (`ErrorSurvivesSuccess`).

## Model

| member | source | states |
|---|---|---|
| Cells.ToCell | src/validator.py:504 | an optional string handed on as a cell is truthy exactly when the string is non-empty |
| Cells.Or | src/validator.py:556 | `x or y` picks `x` when it is truthy and `y` otherwise |
| Cells.TrimCell | src/validator.py:441-446 | trimming a truthy string never changes whether it counts as missing, and the result is stripped |
| Cells.MissingIgnoresPadding | src/validator.py:18-30 | surrounding white space never changes whether a value counts as missing |
| Cells.MissingIgnoresCase | src/validator.py:18-30 | letter case never changes whether a value counts as missing ("NaN", "NULL") |
| Cells.DigitIsNotMissing | src/validator.py:18-30 | a string holding a digit is never a missing value |
| Cells.DigitEnds | src/validator.py:18-30 | text that starts and ends with a digit is present, and stripping leaves it unchanged |
| Cas.NormalizeCas | src/validator.py:131-161 | the normalised form is None exactly for a missing value |
| Cas.NormalizeTruthy | src/validator.py:144-161 | a value that is not missing always normalises to a non-empty string |
| Cas.NormalizeRegroups | src/validator.py:147-161 | with five or more digits, the result is those digits regrouped as `first-middle-check`, whatever separated them |
| Cas.NormalizeShort | src/validator.py:150-156 | with one to four digits, the result is non-empty, made of those digits in order and single dashes, beginning and ending with a digit |
| Cas.NormalizeJoined | src/validator.py:150-156 | with fewer than five digits, two digit runs around any run of other characters normalise to the two runs joined by one dash (`"1a2"` gives `"1-2"`) |
| Cas.NormalizeNoDigits | src/validator.py:147-152 | without digits, the result is the stripped text |
| Cas.NormalizeIdempotent | src/validator.py:131-161 | normalising a normal form changes nothing |
| Cas.NormalizeMatchesPattern | src/validator.py:131-185 | the normal form matches the CAS pattern exactly when the input holds five to ten digits |
| Cas.NormalizeIgnoresPadding | src/validator.py:147 | surrounding white space never changes the normal form |
| Cas.ValidCasIsNormal | src/validator.py:131-185 | a valid CAS number normalises to itself, stripped |
| Cas.IsValidCas | src/validator.py:163-185 | the answer is true exactly when the value is present, matches `\d{2,7}-\d{2}-\d` once stripped, and its check digit is the weighted digit sum modulo 10 |
| Cas.ReversedWeightedSum | src/validator.py:180-185 | the loop from the last digit, weighting by position, computes the weighted sum of the body |
| Cas.WeightedSumAppend | src/validator.py:182-185 | the weights of a prefix grow by the length of what follows it |
| Cas.CheckDigitUnique | src/validator.py:182-185 | only one check digit fits a given body |
| Cas.SwapDifference | src/validator.py:182-185 | swapping two adjacent digits changes the weighted sum by exactly their difference |
| Cas.TranspositionDetected | src/validator.py:163-185 | swapping two adjacent, different digits of a valid number's body always breaks the check digit |
| Cas.PatternShape | src/validator.py:176-180 | a pattern match is digits and single dashes, and regrouping its digits rebuilds it |
| Cas.FormatShape | src/validator.py:154-161 | regrouping five or more digits keeps the digits; the result matches the pattern exactly when there are at most ten |
| Cas.DashRunsShape | src/validator.py:150 | collapsing non-digit runs leaves only digits and single dashes, with a leading dash exactly when the input starts with a non-digit |
| Cas.DashRunsDigits | src/validator.py:150 | collapsing non-digit runs keeps every digit, in order |
| Cas.DashRunsFix | src/validator.py:150 | text of digits and single dashes is left alone by the collapse |
| Cas.DigitsRun | src/validator.py:150 | a leading run of digits passes through the collapse unchanged |
| Cas.DashRunsJoin | src/validator.py:150 | a run of non-digits after a run of digits becomes exactly one dash, up to the next digit |
| Cas.CollapsedShape | src/validator.py:147-150 | the collapsed, dash-stripped text begins and ends with a digit and has no double dash |
| Cas.CollapsedDigits | src/validator.py:147-153 | the collapsed text keeps exactly the input's digits, and is empty exactly when there are none |
| CasExamples.ValidityOfPattern | src/validator.py:175-185 | a pattern-shaped string is valid exactly when its digits pass the check-digit rule |
| CasExamples.ValidityOf7 | src/validator.py:175-185 | a number `ab-cd-e` is valid exactly when the weighted sum of `abcd` ends in `e` |
| CasExamples.BenzeneValid | tests/test_validator.py:198 | 71-43-2 is a valid CAS number |
| CasExamples.BenzeneTypoInvalid | tests/test_validator.py:210 | 71-43-3 fails the check digit |
| CasExamples.AcetoneIsNormal | tests/test_validator.py:30-31 | 67-64-1 is valid and is its own normal form |
| CasExamples.AcetoneUndashed | tests/test_validator.py:35-36 | "67641" normalises to "67-64-1" |
| CasExamples.AcetoneSeparated | tests/test_validator.py:40-47 | any non-digit separators around 67, 64 and 1 (en dashes, underscores) normalise to "67-64-1" |
| CasExamples.AcetonePadded | tests/test_validator.py:51-52 | "67-64-1" with white space around it normalises to "67-64-1" |
| CasExamples.MissingNormalizesToNone | tests/test_validator.py:56-62 | None and the empty string normalise to None |
| CasExamples.ShortNumberKept | tests/test_validator.py:66-69 | "12-3" is returned as it is |
| CasExamples.SameDigitsSameNormal | src/validator.py:147-161 | two inputs with the same five or more digits normalise alike |
| CasExamples.ValidIsItsOwnNormal | src/validator.py:131-185 | a valid number with no surrounding space is its own normal form |
| Schema.FirstWhere | src/validator.py:202-213 | the position returned holds the first label that the test accepts; None means no label is accepted |
| Schema.DetectColumns | src/validator.py:187-226 | detection fails with "Could not find Name or CAS columns" exactly when no label holds "name" or none holds "cas" without "cassia"; otherwise each column is the first of its kind, and the SMILES column is absent only when no label qualifies |
| Schema.DetectFirst | src/validator.py:202-213 | each chosen column is the first label of its kind |
| Schema.LabelsIgnoreCase | src/validator.py:207 | the column tests ignore letter case |
| Schema.DetectExtend | src/validator.py:202-213 | appending labels after a successful detection keeps the chosen name and CAS columns, and keeps a SMILES column already found |
| Schema.CassiaIsNotCas | src/validator.py:210 | a label containing "cassia" never serves as the CAS column |
| PubChem.SearchLoopLog | src/validator.py:261-307 | the retry loop appends its request once per attempt, at least once and at most once per attempt left, and fetches nothing |
| PubChem.SearchLoopStops | src/validator.py:261-307 | the loop goes on exactly past attempts that raised a transient error with attempts to spare |
| PubChem.SearchLoopAnswer | src/validator.py:266-279 | the ids returned come from the last attempt's first compound |
| PubChem.SearchLoopError | src/validator.py:280-303 | the error text left is that of the last attempt that raised: the last attempt itself, else the one before it |
| PubChem.SearchLoopKind | src/validator.py:283-294 | the kind is bad-input exactly when some attempt raised a bad-input error; otherwise it is kept |
| PubChem.QueryAttempts | src/validator.py:228-309 | a query sends its identifier's text between one and the maximum number of times; a falsy identifier sends nothing and changes nothing |
| PubChem.QueryRetriesOnlyTransient | src/validator.py:300-307 | only transient failures with attempts left are retried, and the query stops at the first attempt that is not |
| PubChem.QueryAnswer | src/validator.py:261-279 | the query's ids are those of the last attempt's first compound |
| PubChem.QueryError | src/validator.py:256-303 | after a query the error text is that of its last failed attempt, or None when no attempt failed |
| PubChem.QueryKind | src/validator.py:256-294 | after a query the kind is bad-input exactly when one of its attempts raised a bad-input error |
| PubChem.QueryFirstResult | src/validator.py:261-279 | a first attempt that returns a list ends the query after one search, with the first compound's ids or none, and no error |
| PubChem.QueryFailsOnce | tests/test_validator.py:440-453 | a failure that is not transient is tried once: no ids, its text recorded, and the kind bad-input exactly when the text says so |
| PubChem.BadInputCanBeRetried | src/validator.py:283-303 | a bad-input message that also holds a transient phrase is retried, and the kind stays bad-input |
| PubChem.ErrorSurvivesSuccess | src/validator.py:256-303 | the error text of a transient failure survives a later successful attempt |
| PubChem.FetchLoopLog | src/validator.py:324-342 | the fetch loop fetches its CID once per attempt, at least once and at most once per attempt left, and makes no search |
| PubChem.FetchLoopAnswer | src/validator.py:324-342 | a structure is returned only when some attempt fetched the record holding it |
| PubChem.FetchLoopStops | src/validator.py:324-342 | the fetch loop goes on exactly past attempts that raised a transient error with attempts to spare, and returns the structure of the attempt it stopped at |
| PubChem.FetchLoopError | src/validator.py:332-342 | the error text the fetch loop leaves is that of its last failed attempt: the last attempt itself, else the one before it |
| PubChem.FetchAttempts | src/validator.py:311-344 | a truthy CID is fetched one to `max_retries` times, up to the first attempt that is not a transient failure with attempts to spare; the structure is that attempt's, the error text that of the last failed attempt (cleared on entry), and the error kind is kept |
| PubChem.FetchFirstAttempt | src/validator.py:311-344 | a first fetch that reaches the record returns its structure after one call with no error; a first failure that is not transient returns None after one call with its text recorded |
| PubChem.FetchFalsy | tests/test_validator.py:482-485 | a falsy CID fetches nothing and changes nothing; otherwise at most the maximum number of fetches is made |
| Verdicts.Initial | src/validator.py:418-438 | a new record has an unknown status and no reason, and its structure's source is the input exactly when the structure is present |
| Verdicts.Take | src/validator.py:559 | `s[:14]` is a prefix of `s` whose length is fourteen, or less when `s` is shorter |
| Verdicts.ConsensusTable | src/validator.py:540-583 | validated exactly when all three CIDs are truthy and equal; discordance exactly when all three are truthy but not equal; not-found exactly when two agree, or at most one is found with no error; not-found-and-discordance exactly when two differ; query-failed exactly when at most one is found and an error was recorded |
| Verdicts.ConsensusValidated | src/validator.py:551-560 | a validated outcome carries the name's CID, the first truthy InChIKey of name, CAS and SMILES, and that key's first fourteen characters |
| Verdicts.ErrorsMatterOnlyWhenLittleFound | src/validator.py:548-583 | recorded errors change the outcome only when at most one CID was found |
| Reconcile.NameOkIsPresent | src/validator.py:448-453 | `name_ok` is exactly "the name is not missing" |
| Reconcile.RetrievalOutcome | src/validator.py:346-385 | a structure comes back exactly when the reason is None; the reason is not-found when name or CAS gave no CID, discordance when both did but differ, and no-structure when they agree and the fetch gave nothing; the fetch happens only when the two CIDs agree |
| Reconcile.QueryExtends | src/validator.py:228-309 | a lookup only appends to the search log and never fetches |
| Reconcile.SearchCasExtends | src/validator.py:503-512 | the CAS lookup, with or without its hyphen-free retry, only appends to the search log |
| Reconcile.StaleNameError | src/validator.py:496-499 | a falsy name leaves the previous error text in place, and it is reported first under `name=` |
| Reconcile.JoinStartsWithFirst | src/validator.py:536-537 | the joined error text begins with the first error |
| Reconcile.NaNNameLookedUp | src/validator.py:448-453 | a NaN name fails `name_ok` but still reaches the name lookup (the model records the identifier as the text "nan") |
| Reconcile.FinishSettled | src/validator.py:516-583 | after the lookups every record ends validated or rejected, with a reason exactly when rejected, never for insufficient identifiers or an invalid CAS, and with its identifiers untouched |
| Reconcile.FinishValidated | src/validator.py:551-560 | a validated record has three equal truthy CIDs, the name's CID as its own, and the first truthy InChIKey |
| Reconcile.FinishQueryFailed | src/validator.py:540-583 | query-failed is chosen only with an error recorded and at most one CID found; not-found with at most one CID means no error was recorded |
| Reconcile.SmilesGate | src/validator.py:516-530 | past the CAS gate, a truthy SMILES is rejected as `invalid_smiles` exactly when its own lookup found no CID and one of its attempts raised a bad-input error; the record then has no SMILES ids, keeps the name and CAS CIDs, and carries the joined error texts, ending with the SMILES error, exactly when that lookup left an error text |
| Reconcile.FinishErrors | src/validator.py:496-537 | unless the SMILES gate fires, the record's error text is the lookups' error texts joined by "; " |
| Reconcile.ResolveSettled | src/validator.py:485-583 | the CAS gate fires before any lookup exactly for a supplied CAS whose normal form is invalid; the record then carries the normal form, and the lookup state is untouched |
| Reconcile.GateFirst | src/validator.py:455-466 | the row is rejected for insufficient identifiers exactly when the mode's requirement fails, and then nothing is looked up and the CAS is kept as given |
| Reconcile.Settled | src/validator.py:387-583 | every verdict ends validated or rejected, never unknown, with a reason exactly when rejected, and carries its row number |
| Reconcile.BackfillSource | src/validator.py:469-482 | the structure comes from PubChem exactly in retrieval mode, for a sufficient row without a structure, when the back-fill found one; the record then holds it |
| Reconcile.BackfillBeforeCasGate | src/validator.py:469-482 | a failed back-fill rejects with its own reason, never `invalid_cas`, keeps the CAS as given, and keeps the back-fill's two CIDs |
| Reconcile.FullModeCasGate | src/validator.py:485-492 | in full mode a sufficient row is rejected as `invalid_cas`, with no lookup, exactly when its CAS is supplied and its normal form is invalid |
| Reconcile.ValidatedAgree | src/validator.py:551-560 | a validated verdict has three equal truthy CIDs, the name's CID as its own, and the first truthy InChIKey |
| Reconcile.StaleErrorReported | src/validator.py:496-537 | in full mode a blank name makes the row report the previous lookup's error text first, under `name=` |
| Duplicates.Key | src/validator.py:597-603 | a key the pass groups by is never empty |
| Duplicates.Apply | src/validator.py:585-656 | a pass keeps the list's length and order, marks each member of a group of two or more by its role, and leaves every other verdict as it was |
| Duplicates.OccMembers | src/validator.py:600-603 | a group's members are exactly the positions holding its key |
| Duplicates.FirstIsFirstOccurrence | src/validator.py:608-617 | a member is the kept one exactly when no earlier verdict has its key |
| Duplicates.SameGroupSameKey | src/validator.py:605-618 | two marked verdicts share a group number exactly when they share a key |
| Duplicates.GroupsNumberedInOrder | src/validator.py:605-618 | groups are numbered from 1 in the order of their first members |
| Duplicates.OneFirst | src/validator.py:608-617 | each group keeps exactly one member |
| Duplicates.RoleInGroup | src/validator.py:608-617 | the x-th member of the p-th group of two or more gets number one plus the count of earlier such groups, and is kept exactly when x is 0 |
| Duplicates.ExactLeavesDistinctKeys | src/validator.py:585-620 | after the exact pass no two validated verdicts share a truthy InChIKey |
| Duplicates.ExactIdempotent | src/validator.py:585-620 | running the exact pass twice is running it once |
| Duplicates.StereoKeepsRejections | src/validator.py:622-656 | the stereo pass rejects nothing, un-rejects nothing, and keeps every reason and exact group |
| Duplicates.OutsideGroupsUntouched | src/validator.py:608-618 | neither pass touches a verdict outside a group of two or more |
| Duplicates.PassFields | src/validator.py:608-618 | a pass changes only status, reason and its own group field, and the kept member's status is unchanged |
| Workflow.ValidateRows | src/validator.py:725-742 | the row loop gives one verdict per row |
| Workflow.Rejections | src/validator.py:751-755 | the count of rejected verdicts is at most the list's length |
| Workflow.NoRejections | src/validator.py:751-755 | the count is zero exactly when no verdict is rejected |
| Workflow.RowsSettled | src/validator.py:725-742 | each row's verdict carries the row's index plus one and ends validated or rejected |
| Workflow.PassStatus | src/validator.py:608-656 | a pass keeps a status, or sets it to rejected (exact pass) or stereo-duplicate (stereo pass) |
| Workflow.CsvRefused | src/validator.py:692-698 | a table without a name or CAS column answers false and changes nothing |
| Workflow.CsvShape | src/validator.py:692-746 | otherwise the mode follows the SMILES column, and the new verdicts follow the earlier ones, one per row in row order, numbered by index plus one |
| Workflow.CsvAnswer | src/validator.py:658-755 | the answer is true exactly when the columns were found and no verdict is rejected after both passes; then every new row is validated or a stereo duplicate |
| ChemValidator.Validator.constructor | src/validator.py:124-129 | a new validator has no results, is in full mode and has no error recorded |
| ChemValidator.Validator.IdentifyColumns | src/validator.py:187-226 | returns the detection's answer; sets the mode only when detection succeeds; changes nothing else |
| ChemValidator.Validator.ScanLabels | src/validator.py:202-213 | the single scan finds the first label of each kind |
| ChemValidator.Validator.QueryPubChem | src/validator.py:228-309 | the retry loop returns the query's ids and leaves the error fields and the search log as the query says |
| ChemValidator.Validator.GetSmiles | src/validator.py:311-344 | the fetch loop returns the structure and leaves the error text and the fetch log as the fetch says |
| ChemValidator.Validator.RetrieveSmiles | src/validator.py:346-385 | the back-fill returns the structure, the two CIDs and the reason that the retrieval function gives |
| ChemValidator.Validator.ValidateChemical | src/validator.py:387-583 | the verdict and the new lookup state are the row's validation |
| ChemValidator.Validator.Check | src/validator.py:485-583 | after the gates, the verdict and state are those of the CAS gate, the lookups and the consensus |
| ChemValidator.Validator.Conclude | src/validator.py:516-583 | the SMILES gate, the joined errors and the consensus give the finished verdict |
| ChemValidator.Validator.LookUpAll | src/validator.py:494-534 | the three lookups return the ids and the tagged error texts |
| ChemValidator.Validator.LookUpCas | src/validator.py:503-512 | the CAS lookup retries without hyphens exactly when the normalised number found no CID, tagging each error text |
| ChemValidator.Validator.Analyze | src/validator.py:540-583 | the counting and comparing of the found CIDs decides as the consensus table does |
| ChemValidator.Validator.GroupByKey | src/validator.py:600-603 | the keys come in order of first occurrence, each with its members in order |
| ChemValidator.Validator.MarkGroup | src/validator.py:609-616 | one group's members are marked, the first as kept, and nothing else changes |
| ChemValidator.Validator.MarkGroups | src/validator.py:605-618 | the loop over the groups marks every group of two or more, numbered in turn |
| ChemValidator.Validator.MarkTurn | src/validator.py:608-617 | one turn marks the p-th group when it has two or more members and advances the number past it |
| ChemValidator.Validator.MarkDuplicates | src/validator.py:597-618 | the list becomes the pass's result, and nothing else changes |
| ChemValidator.Validator.CheckExactDuplicates | src/validator.py:585-620 | the list becomes the exact pass's result, and the answer is true |
| ChemValidator.Validator.CheckStereoisomerDuplicates | src/validator.py:622-656 | the list becomes the stereo pass's result, and the answer is true |
| ChemValidator.Validator.ValidateEach | src/validator.py:725-742 | the row loop appends the rows' verdicts in order and threads the lookup state |
| ChemValidator.Validator.ValidateRow | src/validator.py:726-742 | one turn reads, trims and validates the first row and appends its verdict |
| ChemValidator.Validator.CountRejected | src/validator.py:751-755 | the count is the number of rejected verdicts |
| ChemValidator.Validator.ValidateCsv | src/validator.py:658-755 | the fields and the answer become those of the table run |
| ChemValidator.StageDone | src/validator.py:605-618 | after the last key the marking loop's list is the pass's result |
| ChemValidator.GroupedSome | src/validator.py:603 | `setdefault(key, []).append(i)` keeps the first-occurrence order and each key's members |

## Left out

- TLS set-up (`_ensure_ca_bundle_configured`) and the certificate-error log lines: they configure the network, which is not modelled.
- The sleep and backoff between retries, logging and `progress_callback`: they do not affect any result.
- Reading the file, including the string dtype and the read error's `False`. Rows arrive as cells with their pandas index.
- The empty-row filter. The rows given are those that survive it, each with its original index, so row numbers still skip dropped rows.
- The "water" connectivity preflight in `validate_csv`. Its effect on the error fields and the search log is covered because every property holds from any starting lookup state.
- The summary counts other than the rejected count: they are only logged.
- `save_results` and its output-name rule: file output.
- The GUI, the command line and the entry point.
- Digits are ASCII only, and `lower()` lowers ASCII letters only. Every keyword the source tests is ASCII. The cost is in CAS numbers: one written in other decimal digits (full-width digits, say) is taken as all separators and rejected as `invalid_cas`, while the source normalises and checks it.
- How the client library renders a NaN identifier in its request. The model records the identifier as the text `"nan"`; the source hands the float value on unchanged.
- CIDs are strings. The source compares them only for equality and truthiness.
- `input_path` and `output_folder`: they only name files.
- Duplicate column labels: a table's labels are positions, so two columns cannot share a key.
- The `duplicates_found` flag in both passes: it is set and never read.
- The retry budget is fixed at three for every call, as every caller in the source passes it.
