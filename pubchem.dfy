/** PubChem lookups with retry (`query_pubchem_cid_and_inchikey`, `get_smiles_from_pubchem`).
    The service is a scripted oracle: the k-th search ever made gets outcome `search(k)`,
    the k-th structure fetch gets `fetch(k)`. */
module PubChem {
  import opened Strings
  import opened Cells

  /** The PubChem namespaces searched: 'name' and 'smiles'. */
  datatype Namespace = ByName | BySmiles

  /** One search as sent to PubChem. */
  datatype Request = Request(identifier: string, ns: Namespace)

  /** A compound record: its CID and, when the record carries one, its InChIKey. */
  datatype Compound = Compound(cid: Option<string>, inchikey: Option<string>)

  /** One search attempt: the list of matching compounds (possibly empty), or an exception. */
  datatype SearchOutcome = Compounds(hits: seq<Compound>) | SearchRaised(typeName: string, message: string)

  /** One structure fetch: the record's SMILES (None when it has none), or an exception. */
  datatype FetchOutcome = Fetched(smiles: Option<string>) | FetchRaised(typeName: string, message: string)

  /** `_last_pubchem_error_kind`: the only kind recorded is "bad_input". */
  datatype ErrorKind = BadInput

  /** The (cid, inchikey) pair a search returns. */
  datatype Ids = Ids(cid: Option<string>, inchikey: Option<string>)

  const NoIds := Ids(None, None)

  /** The lookup state the validator keeps between calls: `_last_pubchem_error`,
      `_last_pubchem_error_kind`, and every search and fetch made so far. */
  datatype Tracker = Tracker(lastError: Option<string>, lastErrorKind: Option<ErrorKind>,
                             searches: seq<Request>, fetches: seq<string>)

  datatype Lookup = Lookup(ids: Ids, after: Tracker)

  datatype Fetch = Fetch(smiles: Option<string>, after: Tracker)

  /** The retry budget every caller uses (`max_retries=3`). */
  const MaxRetries: nat := 3

  /** Phrases marking a request PubChem refused as malformed. */
  const BadInputWords: seq<string> :=
    ["pugrest.badrequest", "badrequest", "status: 400", "http error 400", "unable to standardize"]

  /** Phrases marking a failure worth retrying. */
  const TransientWords: seq<string> := ["503", "busy", "timeout", "ssl"]

  predicate MentionsAny(text: string, words: seq<string>) {
    exists w | w in words :: Contains(text, w)
  }

  /** The exception's text, lower-cased, contains a bad-input phrase. */
  predicate IsBadInput(message: string) { MentionsAny(Lower(message), BadInputWords) }

  /** The exception's text, lower-cased, contains a transient-failure phrase. */
  predicate IsTransient(message: string) { MentionsAny(Lower(message), TransientWords) }

  /** `f"{type(e).__name__}: {e}"` */
  function ErrorText(typeName: string, message: string): string {
    typeName + ": " + message
  }

  /** How the search log records the value a lookup is handed: the text itself, and `str(value)`
      for the two non-text values (the float NaN itself goes to the client library). */
  function Display(v: Cell): string {
    match v
    case Absent => "None"
    case NaN => "nan"
    case Text(s) => s
  }

  /** The ids the first compound of a non-empty result gives; NoIds otherwise. */
  function Answer(o: SearchOutcome): Ids {
    if o.Compounds? && o.hits != [] then Ids(o.hits[0].cid, o.hits[0].inchikey) else NoIds
  }

  /** The loop goes on after attempt `attempt`: the attempt raised a transient error
      and was not the last one allowed. */
  predicate Retries(o: SearchOutcome, attempt: nat, maxRetries: nat) {
    o.SearchRaised? && IsTransient(o.message) && attempt + 1 < maxRetries
  }

  /** The retry loop of `query_pubchem_cid_and_inchikey` from attempt `attempt` on. */
  function SearchLoop(search: nat -> SearchOutcome, req: Request, attempt: nat, maxRetries: nat, t: Tracker): Lookup
    decreases maxRetries - attempt
  {
    if attempt >= maxRetries then Lookup(NoIds, t)
    else
      var o := search(|t.searches|);
      var t1 := t.(searches := t.searches + [req]);
      match o
      case Compounds(hits) => Lookup(Answer(o), t1)
      case SearchRaised(ty, msg) =>
        var t2 := AfterRaise(t1, ty, msg);
        if IsTransient(msg) && attempt < maxRetries - 1 then SearchLoop(search, req, attempt + 1, maxRetries, t2)
        else Lookup(NoIds, t2)
  }

  /** The handler of a failed search: record the error text, and the kind when the text
      says the input was bad (an earlier kind is otherwise kept). */
  function AfterRaise(t: Tracker, typeName: string, message: string): Tracker {
    t.(lastError := Some(ErrorText(typeName, message)),
       lastErrorKind := if IsBadInput(message) then Some(BadInput) else t.lastErrorKind)
  }

  /** `query_pubchem_cid_and_inchikey`: a falsy identifier returns at once and leaves the
      error fields as they were; otherwise both are cleared and the loop runs. */
  function Query(search: nat -> SearchOutcome, identifier: Cell, ns: Namespace, maxRetries: nat, t: Tracker): Lookup {
    if !Truthy(identifier) then Lookup(NoIds, t)
    else SearchLoop(search, Request(Display(identifier), ns), 0, maxRetries, t.(lastError := None, lastErrorKind := None))
  }

  /** The retry loop of `get_smiles_from_pubchem` from attempt `attempt` on. */
  function FetchLoop(fetch: nat -> FetchOutcome, cid: string, attempt: nat, maxRetries: nat, t: Tracker): Fetch
    decreases maxRetries - attempt
  {
    if attempt >= maxRetries then Fetch(None, t)
    else
      var o := fetch(|t.fetches|);
      var t1 := t.(fetches := t.fetches + [cid]);
      match o
      case Fetched(smiles) => Fetch(smiles, t1)
      case FetchRaised(ty, msg) =>
        var t2 := t1.(lastError := Some(ErrorText(ty, msg)));
        if IsTransient(msg) && attempt < maxRetries - 1 then FetchLoop(fetch, cid, attempt + 1, maxRetries, t2)
        else Fetch(None, t2)
  }

  /** `get_smiles_from_pubchem`: a falsy CID returns None at once; otherwise the error text
      (but not its kind) is cleared and the loop runs. */
  function FetchSmiles(fetch: nat -> FetchOutcome, cid: Option<string>, maxRetries: nat, t: Tracker): Fetch {
    if !Present(cid) then Fetch(None, t)
    else FetchLoop(fetch, cid.value, 0, maxRetries, t.(lastError := None))
  }

  // ---------------------------------------------------------------- lemmas

  /** `n` copies of `req`. */
  function Repeat(req: Request, n: nat): (r: seq<Request>)
    ensures |r| == n && forall i :: 0 <= i < n ==> r[i] == req
  {
    seq(n, i => req)
  }

  /** Number of searches a loop made. */
  function Made(t: Tracker, r: Lookup): int {
    |r.after.searches| - |t.searches|
  }

  /** The outcomes of `n` calls (searches or fetches) starting with the call numbered `base`. */
  function Seen<O>(outcome: nat -> O, base: nat, n: nat): (os: seq<O>)
    ensures |os| == n && forall k :: 0 <= k < n ==> os[k] == outcome(base + k)
  {
    seq(n, k requires 0 <= k < n => outcome(base + k))
  }

  lemma SeenCons(search: nat -> SearchOutcome, base: nat, n: nat)
    requires n >= 1
    ensures Seen(search, base, n) == [search(base)] + Seen(search, base + 1, n - 1)
  {
    var a, b := Seen(search, base, n), [search(base)] + Seen(search, base + 1, n - 1);
    forall k | 0 <= k < n ensures a[k] == b[k] {
      if k > 0 { assert b[k] == Seen(search, base + 1, n - 1)[k - 1]; }
    }
  }

  /** The outcomes of the searches a loop made. */
  function Tried(search: nat -> SearchOutcome, t: Tracker, r: Lookup): seq<SearchOutcome>
    requires Made(t, r) >= 0
  {
    Seen(search, |t.searches|, Made(t, r))
  }

  /** The loop only appends `req` to the search log, at most once per allowed attempt
      and at least once when an attempt is allowed; it makes no fetch. */
  lemma {:induction false} SearchLoopLog(search: nat -> SearchOutcome, req: Request, attempt: nat, maxRetries: nat, t: Tracker)
    decreases maxRetries - attempt
    ensures var r := SearchLoop(search, req, attempt, maxRetries, t);
      0 <= Made(t, r) && r.after.searches == t.searches + Repeat(req, Made(t, r))
      && r.after.fetches == t.fetches
      && (attempt < maxRetries ==> 1 <= Made(t, r) <= maxRetries - attempt)
      && (attempt >= maxRetries ==> Made(t, r) == 0)
  {
    if attempt < maxRetries {
      var o := search(|t.searches|);
      var t1 := t.(searches := t.searches + [req]);
      if o.SearchRaised? && IsTransient(o.message) && attempt < maxRetries - 1 {
        var t2 := AfterRaise(t1, o.typeName, o.message);
        SearchLoopLog(search, req, attempt + 1, maxRetries, t2);
        var r := SearchLoop(search, req, attempt + 1, maxRetries, t2);
        assert t.searches + Repeat(req, Made(t, r)) == t2.searches + Repeat(req, Made(t2, r));
      } else {
        assert Repeat(req, 1) == [req];
      }
    } else {
      assert t.searches + Repeat(req, 0) == t.searches;
    }
  }

  /** One step of the loop: after a retried attempt the rest of the loop is the loop from
      the next attempt, and the outcomes seen are this one followed by the rest. */
  lemma SearchLoopStep(search: nat -> SearchOutcome, req: Request, attempt: nat, maxRetries: nat, t: Tracker)
    requires attempt < maxRetries
    requires Retries(search(|t.searches|), attempt, maxRetries)
    ensures var o := search(|t.searches|);
      var t2 := AfterRaise(t.(searches := t.searches + [req]), o.typeName, o.message);
      var r := SearchLoop(search, req, attempt, maxRetries, t);
      r == SearchLoop(search, req, attempt + 1, maxRetries, t2)
      && Made(t, r) == Made(t2, r) + 1 && Made(t2, r) >= 1
      && Tried(search, t, r) == [o] + Tried(search, t2, r)
  {
    var o := search(|t.searches|);
    var t2 := AfterRaise(t.(searches := t.searches + [req]), o.typeName, o.message);
    SearchLoopLog(search, req, attempt + 1, maxRetries, t2);
    var r := SearchLoop(search, req, attempt, maxRetries, t);
    SeenCons(search, |t.searches|, Made(t, r));
  }

  /** Without a retry the loop makes exactly one attempt. */
  lemma SearchLoopFinal(search: nat -> SearchOutcome, req: Request, attempt: nat, maxRetries: nat, t: Tracker)
    requires attempt < maxRetries
    requires !Retries(search(|t.searches|), attempt, maxRetries)
    ensures var r := SearchLoop(search, req, attempt, maxRetries, t);
      Made(t, r) == 1 && Tried(search, t, r) == [search(|t.searches|)]
  {
  }

  /** Attempts numbered from `attempt` on: every one but the last was retried, the last was not. */
  predicate StopsAt(os: seq<SearchOutcome>, attempt: nat, maxRetries: nat) {
    os != []
    && (forall k :: 0 <= k < |os| - 1 ==> Retries(os[k], attempt + k, maxRetries))
    && !Retries(os[|os| - 1], attempt + |os| - 1, maxRetries)
  }

  /** The loop stops at the first attempt that does not call for a retry: every attempt
      before the last raised a transient error with attempts to spare, the last did not. */
  lemma {:induction false} SearchLoopStops(search: nat -> SearchOutcome, req: Request, attempt: nat, maxRetries: nat, t: Tracker)
    requires attempt < maxRetries
    decreases maxRetries - attempt
    ensures var r := SearchLoop(search, req, attempt, maxRetries, t);
      Made(t, r) >= 1 && StopsAt(Tried(search, t, r), attempt, maxRetries)
  {
    SearchLoopLog(search, req, attempt, maxRetries, t);
    var o := search(|t.searches|);
    if Retries(o, attempt, maxRetries) {
      var t2 := AfterRaise(t.(searches := t.searches + [req]), o.typeName, o.message);
      SearchLoopStep(search, req, attempt, maxRetries, t);
      SearchLoopStops(search, req, attempt + 1, maxRetries, t2);
      var r := SearchLoop(search, req, attempt, maxRetries, t);
      RetriedCons(o, Tried(search, t2, r), attempt, maxRetries);
    } else {
      SearchLoopFinal(search, req, attempt, maxRetries, t);
    }
  }

  /** Prefixing a retried outcome to a run that stops keeps it a run that stops. */
  lemma RetriedCons(o: SearchOutcome, rest: seq<SearchOutcome>, attempt: nat, maxRetries: nat)
    requires Retries(o, attempt, maxRetries) && StopsAt(rest, attempt + 1, maxRetries)
    ensures StopsAt([o] + rest, attempt, maxRetries)
  {
    var os := [o] + rest;
    forall k | 0 <= k < |os| - 1 ensures Retries(os[k], attempt + k, maxRetries) {
      if k > 0 { assert os[k] == rest[k - 1]; }
    }
    assert os[|os| - 1] == rest[|rest| - 1];
  }

  /** The ids a loop returns are those of its last attempt's first compound, if it found any. */
  lemma {:induction false} SearchLoopAnswer(search: nat -> SearchOutcome, req: Request, attempt: nat, maxRetries: nat, t: Tracker)
    requires attempt < maxRetries
    decreases maxRetries - attempt
    ensures var r := SearchLoop(search, req, attempt, maxRetries, t);
      Made(t, r) >= 1 && var os := Tried(search, t, r); r.ids == Answer(os[|os| - 1])
  {
    SearchLoopLog(search, req, attempt, maxRetries, t);
    var o := search(|t.searches|);
    if Retries(o, attempt, maxRetries) {
      var t2 := AfterRaise(t.(searches := t.searches + [req]), o.typeName, o.message);
      SearchLoopStep(search, req, attempt, maxRetries, t);
      SearchLoopAnswer(search, req, attempt + 1, maxRetries, t2);
      var r := SearchLoop(search, req, attempt, maxRetries, t);
      var os, rest := Tried(search, t, r), Tried(search, t2, r);
      assert os[|os| - 1] == rest[|rest| - 1];
    } else {
      SearchLoopFinal(search, req, attempt, maxRetries, t);
    }
  }

  /** The error text an outcome records, if it is an exception. */
  function RaisedText(o: SearchOutcome): Option<string> {
    if o.SearchRaised? then Some(ErrorText(o.typeName, o.message)) else None
  }

  /** The error text left behind is that of the last attempt that raised: the last attempt
      itself, else the one before it; with a single successful attempt, the text on entry. */
  lemma {:induction false} SearchLoopError(search: nat -> SearchOutcome, req: Request, attempt: nat, maxRetries: nat, t: Tracker)
    requires attempt < maxRetries
    decreases maxRetries - attempt
    ensures var r := SearchLoop(search, req, attempt, maxRetries, t);
      Made(t, r) >= 1 && var os := Tried(search, t, r);
      r.after.lastError ==
        if RaisedText(os[|os| - 1]).Some? then RaisedText(os[|os| - 1])
        else if |os| >= 2 then RaisedText(os[|os| - 2])
        else t.lastError
  {
    SearchLoopLog(search, req, attempt, maxRetries, t);
    var o := search(|t.searches|);
    if Retries(o, attempt, maxRetries) {
      var t2 := AfterRaise(t.(searches := t.searches + [req]), o.typeName, o.message);
      SearchLoopStep(search, req, attempt, maxRetries, t);
      SearchLoopError(search, req, attempt + 1, maxRetries, t2);
      var r := SearchLoop(search, req, attempt, maxRetries, t);
      var os, rest := Tried(search, t, r), Tried(search, t2, r);
      assert os[|os| - 1] == rest[|rest| - 1];
      if |rest| >= 2 {
        assert os[|os| - 2] == rest[|rest| - 2];
      } else {
        assert os[|os| - 2] == o;
      }
    } else {
      SearchLoopFinal(search, req, attempt, maxRetries, t);
    }
  }

  /** An outcome that raised a bad-input error. */
  predicate BadRaise(o: SearchOutcome) {
    o.SearchRaised? && IsBadInput(o.message)
  }

  /** The kind is set to bad-input exactly when some attempt raised a bad-input error;
      otherwise it is left as it was on entry. */
  lemma {:induction false} SearchLoopKind(search: nat -> SearchOutcome, req: Request, attempt: nat, maxRetries: nat, t: Tracker)
    requires attempt < maxRetries
    decreases maxRetries - attempt
    ensures var r := SearchLoop(search, req, attempt, maxRetries, t);
      Made(t, r) >= 1 && var os := Tried(search, t, r);
      r.after.lastErrorKind == if exists k :: 0 <= k < |os| && BadRaise(os[k]) then Some(BadInput) else t.lastErrorKind
  {
    SearchLoopLog(search, req, attempt, maxRetries, t);
    var o := search(|t.searches|);
    var r := SearchLoop(search, req, attempt, maxRetries, t);
    if Retries(o, attempt, maxRetries) {
      var t2 := AfterRaise(t.(searches := t.searches + [req]), o.typeName, o.message);
      SearchLoopStep(search, req, attempt, maxRetries, t);
      SearchLoopKind(search, req, attempt + 1, maxRetries, t2);
      BadRaiseCons(o, Tried(search, t2, r));
    } else {
      SearchLoopFinal(search, req, attempt, maxRetries, t);
      BadRaiseCons(o, []);
      assert [o] + [] == [o];
    }
  }

  /** Some outcome of `[o] + rest` raised a bad-input error exactly when `o` did or one of `rest` did. */
  lemma BadRaiseCons(o: SearchOutcome, rest: seq<SearchOutcome>)
    ensures (exists k :: 0 <= k < |[o] + rest| && BadRaise(([o] + rest)[k]))
            <==> BadRaise(o) || exists k :: 0 <= k < |rest| && BadRaise(rest[k])
  {
    var os := [o] + rest;
    assert os[0] == o;
    if exists k :: 0 <= k < |rest| && BadRaise(rest[k]) {
      var k :| 0 <= k < |rest| && BadRaise(rest[k]);
      assert os[k + 1] == rest[k];
    }
    if exists k :: 0 <= k < |os| && BadRaise(os[k]) {
      var k :| 0 <= k < |os| && BadRaise(os[k]);
      if k > 0 {
        assert rest[k - 1] == os[k];
      }
    }
  }

  // ---------------------------------------------------------------- query-level properties

  /** A query sends its identifier's text in the namespace given, between one and
      `maxRetries` times; a falsy identifier sends nothing and leaves every field as it
      was, stale error text included. */
  lemma QueryAttempts(search: nat -> SearchOutcome, id: Cell, ns: Namespace, maxRetries: nat, t: Tracker)
    ensures var r := Query(search, id, ns, maxRetries, t);
      0 <= Made(t, r) <= maxRetries
      && r.after.searches == t.searches + Repeat(Request(Display(id), ns), Made(t, r))
      && r.after.fetches == t.fetches
      && (Made(t, r) == 0 <==> !Truthy(id) || maxRetries == 0)
      && (!Truthy(id) ==> r == Lookup(NoIds, t))
  {
    if Truthy(id) {
      var t0 := t.(lastError := None, lastErrorKind := None);
      SearchLoopLog(search, Request(Display(id), ns), 0, maxRetries, t0);
    } else {
      assert t.searches + Repeat(Request(Display(id), ns), 0) == t.searches;
    }
  }

  /** Only a transient failure with attempts to spare is retried; the query stops at the
      first attempt that is not. */
  lemma QueryRetriesOnlyTransient(search: nat -> SearchOutcome, id: Cell, ns: Namespace, maxRetries: nat, t: Tracker)
    requires Truthy(id) && maxRetries >= 1
    ensures var r := Query(search, id, ns, maxRetries, t);
      Made(t, r) >= 1 && var os := Tried(search, t, r);
      (forall k :: 0 <= k < |os| - 1 ==> Retries(os[k], k, maxRetries))
      && !Retries(os[|os| - 1], |os| - 1, maxRetries)
  {
    var t0 := t.(lastError := None, lastErrorKind := None);
    SearchLoopStops(search, Request(Display(id), ns), 0, maxRetries, t0);
  }

  /** The ids returned come from the first compound of the last attempt's result. */
  lemma QueryAnswer(search: nat -> SearchOutcome, id: Cell, ns: Namespace, maxRetries: nat, t: Tracker)
    requires Truthy(id) && maxRetries >= 1
    ensures var r := Query(search, id, ns, maxRetries, t);
      Made(t, r) >= 1 && var os := Tried(search, t, r); r.ids == Answer(os[|os| - 1])
  {
    var t0 := t.(lastError := None, lastErrorKind := None);
    SearchLoopAnswer(search, Request(Display(id), ns), 0, maxRetries, t0);
  }

  /** The error text after a query is that of its last failed attempt, and None if none failed. */
  lemma QueryError(search: nat -> SearchOutcome, id: Cell, ns: Namespace, maxRetries: nat, t: Tracker)
    requires Truthy(id) && maxRetries >= 1
    ensures var r := Query(search, id, ns, maxRetries, t);
      Made(t, r) >= 1 && var os := Tried(search, t, r);
      r.after.lastError ==
        if RaisedText(os[|os| - 1]).Some? then RaisedText(os[|os| - 1])
        else if |os| >= 2 then RaisedText(os[|os| - 2])
        else None
  {
    var t0 := t.(lastError := None, lastErrorKind := None);
    SearchLoopError(search, Request(Display(id), ns), 0, maxRetries, t0);
  }

  /** After a query the kind is bad-input exactly when one of its attempts raised a bad-input error. */
  lemma QueryKind(search: nat -> SearchOutcome, id: Cell, ns: Namespace, maxRetries: nat, t: Tracker)
    requires Truthy(id) && maxRetries >= 1
    ensures var r := Query(search, id, ns, maxRetries, t);
      Made(t, r) >= 1 && var os := Tried(search, t, r);
      (r.after.lastErrorKind == Some(BadInput) <==> exists k :: 0 <= k < |os| && BadRaise(os[k]))
      && (r.after.lastErrorKind == None <==> !exists k :: 0 <= k < |os| && BadRaise(os[k]))
  {
    var t0 := t.(lastError := None, lastErrorKind := None);
    SearchLoopKind(search, Request(Display(id), ns), 0, maxRetries, t0);
  }

  /** A first attempt that returns a list ends the query: the first compound's ids, or
      NoIds for an empty list, after exactly one search and with no error recorded. */
  lemma QueryFirstResult(search: nat -> SearchOutcome, id: Cell, ns: Namespace, maxRetries: nat, t: Tracker)
    requires Truthy(id) && maxRetries >= 1 && search(|t.searches|).Compounds?
    ensures var r := Query(search, id, ns, maxRetries, t); var hits := search(|t.searches|).hits;
      Made(t, r) == 1
      && (hits != [] ==> r.ids == Ids(hits[0].cid, hits[0].inchikey))
      && (hits == [] ==> r.ids == NoIds)
      && r.after.lastError == None && r.after.lastErrorKind == None
  {
  }

  /** A failure that is not transient is not retried: one search, no ids, its text recorded,
      and the kind bad-input exactly when the text says so (a 400 BadRequest, say). */
  lemma QueryFailsOnce(search: nat -> SearchOutcome, id: Cell, ns: Namespace, maxRetries: nat, t: Tracker)
    requires Truthy(id) && maxRetries >= 1
    requires search(|t.searches|).SearchRaised? && !IsTransient(search(|t.searches|).message)
    ensures var r := Query(search, id, ns, maxRetries, t); var o := search(|t.searches|);
      Made(t, r) == 1 && r.ids == NoIds
      && r.after.lastError == Some(ErrorText(o.typeName, o.message))
      && (r.after.lastErrorKind == Some(BadInput) <==> IsBadInput(o.message))
  {
  }

  /** A bad-input message that also mentions a transient phrase is retried all the same. */
  lemma BadInputCanBeRetried(search: nat -> SearchOutcome, id: Cell, ns: Namespace, maxRetries: nat, t: Tracker)
    requires Truthy(id) && maxRetries >= 2
    requires var o := search(|t.searches|); o.SearchRaised? && IsBadInput(o.message) && IsTransient(o.message)
    ensures var r := Query(search, id, ns, maxRetries, t);
      Made(t, r) >= 2 && r.after.lastErrorKind == Some(BadInput)
  {
    var req := Request(Display(id), ns);
    var t0 := t.(lastError := None, lastErrorKind := None);
    SearchLoopStep(search, req, 0, maxRetries, t0);
    SearchLoopKind(search, req, 0, maxRetries, t0);
    var r := Query(search, id, ns, maxRetries, t);
    assert Tried(search, t0, r)[0] == search(|t.searches|);
  }

  /** An error recorded on a transient attempt survives a later successful attempt. */
  lemma ErrorSurvivesSuccess(search: nat -> SearchOutcome, id: Cell, ns: Namespace, maxRetries: nat, t: Tracker)
    requires Truthy(id) && maxRetries >= 2
    requires var o := search(|t.searches|); o.SearchRaised? && IsTransient(o.message)
    requires search(|t.searches| + 1).Compounds? && search(|t.searches| + 1).hits != []
    ensures var r := Query(search, id, ns, maxRetries, t); var o, h := search(|t.searches|), search(|t.searches| + 1).hits[0];
      Made(t, r) == 2 && r.ids == Ids(h.cid, h.inchikey)
      && r.after.lastError == Some(ErrorText(o.typeName, o.message))
  {
    var req := Request(Display(id), ns);
    var t0 := t.(lastError := None, lastErrorKind := None);
    SearchLoopStep(search, req, 0, maxRetries, t0);
  }

  // ---------------------------------------------------------------- structure fetch

  /** The fetch loop appends `cid` to the fetch log once per attempt, between one and the
      attempts left; it makes no search and never touches the error kind. */
  lemma {:induction false} FetchLoopLog(fetch: nat -> FetchOutcome, cid: string, attempt: nat, maxRetries: nat, t: Tracker)
    decreases maxRetries - attempt
    ensures var r := FetchLoop(fetch, cid, attempt, maxRetries, t); var n := |r.after.fetches| - |t.fetches|;
      0 <= n && r.after.fetches[..|t.fetches|] == t.fetches
      && (forall k :: |t.fetches| <= k < |r.after.fetches| ==> r.after.fetches[k] == cid)
      && r.after.searches == t.searches && r.after.lastErrorKind == t.lastErrorKind
      && (attempt < maxRetries ==> 1 <= n <= maxRetries - attempt)
      && (attempt >= maxRetries ==> n == 0)
  {
    if attempt < maxRetries {
      var o := fetch(|t.fetches|);
      var t1 := t.(fetches := t.fetches + [cid]);
      if o.FetchRaised? && IsTransient(o.message) && attempt < maxRetries - 1 {
        var t2 := t1.(lastError := Some(ErrorText(o.typeName, o.message)));
        FetchLoopLog(fetch, cid, attempt + 1, maxRetries, t2);
        var r := FetchLoop(fetch, cid, attempt + 1, maxRetries, t2);
        assert r.after.fetches[..|t.fetches|] == r.after.fetches[..|t2.fetches|][..|t.fetches|];
      }
    }
  }

  /** A structure is returned only by an attempt that fetched the record. */
  lemma {:induction false} FetchLoopAnswer(fetch: nat -> FetchOutcome, cid: string, attempt: nat, maxRetries: nat, t: Tracker)
    decreases maxRetries - attempt
    ensures var r := FetchLoop(fetch, cid, attempt, maxRetries, t);
      r.smiles.Some? ==> exists k :: |t.fetches| <= k < |r.after.fetches| && fetch(k) == Fetched(r.smiles)
  {
    if attempt < maxRetries {
      var o := fetch(|t.fetches|);
      var t1 := t.(fetches := t.fetches + [cid]);
      if o.FetchRaised? && IsTransient(o.message) && attempt < maxRetries - 1 {
        var t2 := t1.(lastError := Some(ErrorText(o.typeName, o.message)));
        FetchLoopAnswer(fetch, cid, attempt + 1, maxRetries, t2);
        FetchLoopLog(fetch, cid, attempt + 1, maxRetries, t2);
      } else if o.Fetched? {
        FetchLoopLog(fetch, cid, attempt, maxRetries, t);
        var r := FetchLoop(fetch, cid, attempt, maxRetries, t);
        assert fetch(|t.fetches|) == Fetched(r.smiles);
      }
    }
  }

  /** The fetch loop goes on after attempt `attempt`: the attempt raised a transient error
      and was not the last one allowed. */
  predicate FetchRetries(o: FetchOutcome, attempt: nat, maxRetries: nat) {
    o.FetchRaised? && IsTransient(o.message) && attempt + 1 < maxRetries
  }

  /** Fetch attempts numbered from `attempt` on: every one but the last was retried, the last was not. */
  predicate FetchStopsAt(os: seq<FetchOutcome>, attempt: nat, maxRetries: nat) {
    os != []
    && (forall k :: 0 <= k < |os| - 1 ==> FetchRetries(os[k], attempt + k, maxRetries))
    && !FetchRetries(os[|os| - 1], attempt + |os| - 1, maxRetries)
  }

  /** What an attempt hands back: the record's structure, or None after a failure. */
  function FetchedSmiles(o: FetchOutcome): Option<string> {
    if o.Fetched? then o.smiles else None
  }

  /** The error text a failed fetch records. */
  function FetchText(o: FetchOutcome): Option<string> {
    if o.FetchRaised? then Some(ErrorText(o.typeName, o.message)) else None
  }

  /** The fetch loop stops at the first attempt that does not call for a retry: every
      attempt before the last raised a transient error with attempts to spare, the last did
      not, and the result is the last attempt's. */
  lemma {:induction false} FetchLoopStops(fetch: nat -> FetchOutcome, cid: string, attempt: nat, maxRetries: nat, t: Tracker)
    requires attempt < maxRetries
    decreases maxRetries - attempt
    ensures var r := FetchLoop(fetch, cid, attempt, maxRetries, t); var n := |r.after.fetches| - |t.fetches|;
      n >= 1 && var os := Seen(fetch, |t.fetches|, n);
      FetchStopsAt(os, attempt, maxRetries) && r.smiles == FetchedSmiles(os[n - 1])
  {
    FetchLoopLog(fetch, cid, attempt, maxRetries, t);
    var o := fetch(|t.fetches|);
    if FetchRetries(o, attempt, maxRetries) {
      var t2 := t.(fetches := t.fetches + [cid], lastError := Some(ErrorText(o.typeName, o.message)));
      FetchLoopStops(fetch, cid, attempt + 1, maxRetries, t2);
      FetchLoopStep(fetch, cid, attempt, maxRetries, t);
      var r := FetchLoop(fetch, cid, attempt, maxRetries, t);
      var n := |r.after.fetches| - |t.fetches|;
      var os, rest := Seen(fetch, |t.fetches|, n), Seen(fetch, |t2.fetches|, n - 1);
      FetchRetriedCons(o, rest, attempt, maxRetries);
      assert os[n - 1] == rest[n - 2];
    } else {
      assert Seen(fetch, |t.fetches|, 1) == [o];
    }
  }

  /** The error text the fetch loop leaves is that of its last failed attempt: the last
      attempt's when it failed, otherwise the one before it (the text on entry when there
      was only one attempt). */
  lemma {:induction false} FetchLoopError(fetch: nat -> FetchOutcome, cid: string, attempt: nat, maxRetries: nat, t: Tracker)
    requires attempt < maxRetries
    decreases maxRetries - attempt
    ensures var r := FetchLoop(fetch, cid, attempt, maxRetries, t); var n := |r.after.fetches| - |t.fetches|;
      n >= 1 && var os := Seen(fetch, |t.fetches|, n);
      r.after.lastError ==
        if os[n - 1].FetchRaised? then FetchText(os[n - 1])
        else if n >= 2 then FetchText(os[n - 2])
        else t.lastError
  {
    FetchLoopLog(fetch, cid, attempt, maxRetries, t);
    var o := fetch(|t.fetches|);
    if FetchRetries(o, attempt, maxRetries) {
      var t2 := t.(fetches := t.fetches + [cid], lastError := Some(ErrorText(o.typeName, o.message)));
      FetchLoopError(fetch, cid, attempt + 1, maxRetries, t2);
      FetchLoopStep(fetch, cid, attempt, maxRetries, t);
      var r := FetchLoop(fetch, cid, attempt, maxRetries, t);
      var n := |r.after.fetches| - |t.fetches|;
      var os, rest := Seen(fetch, |t.fetches|, n), Seen(fetch, |t2.fetches|, n - 1);
      assert os[n - 1] == rest[n - 2] && os[n - 2] == if n >= 3 then rest[n - 3] else o;
    } else {
      assert Seen(fetch, |t.fetches|, 1) == [o];
    }
  }

  /** After a retried attempt, the rest of the fetch loop is the loop from the next attempt,
      and the outcomes seen are this one followed by the rest. */
  lemma FetchLoopStep(fetch: nat -> FetchOutcome, cid: string, attempt: nat, maxRetries: nat, t: Tracker)
    requires attempt < maxRetries && FetchRetries(fetch(|t.fetches|), attempt, maxRetries)
    ensures var o := fetch(|t.fetches|);
      var t2 := t.(fetches := t.fetches + [cid], lastError := Some(ErrorText(o.typeName, o.message)));
      var r := FetchLoop(fetch, cid, attempt, maxRetries, t); var n := |r.after.fetches| - |t.fetches|;
      r == FetchLoop(fetch, cid, attempt + 1, maxRetries, t2) && n >= 2
      && Seen(fetch, |t.fetches|, n) == [o] + Seen(fetch, |t2.fetches|, n - 1)
  {
    var o := fetch(|t.fetches|);
    var t2 := t.(fetches := t.fetches + [cid], lastError := Some(ErrorText(o.typeName, o.message)));
    FetchLoopLog(fetch, cid, attempt + 1, maxRetries, t2);
    var r := FetchLoop(fetch, cid, attempt, maxRetries, t);
    var n := |r.after.fetches| - |t.fetches|;
    var os, rest := Seen(fetch, |t.fetches|, n), Seen(fetch, |t2.fetches|, n - 1);
    assert os == [o] + rest;
  }

  /** Prefixing a retried fetch to a run that stops keeps it a run that stops. */
  lemma FetchRetriedCons(o: FetchOutcome, rest: seq<FetchOutcome>, attempt: nat, maxRetries: nat)
    requires FetchRetries(o, attempt, maxRetries) && FetchStopsAt(rest, attempt + 1, maxRetries)
    ensures FetchStopsAt([o] + rest, attempt, maxRetries)
  {
    var os := [o] + rest;
    forall k | 0 <= k < |os| - 1 ensures FetchRetries(os[k], attempt + k, maxRetries) {
      if k > 0 { assert os[k] == rest[k - 1]; }
    }
    assert os[|os| - 1] == rest[|rest| - 1];
  }

  /** `get_smiles_from_pubchem` on a truthy CID: between one and `maxRetries` fetches, up to
      the first attempt that is not a transient failure with attempts to spare; the structure
      is that attempt's, the error text that of the last failed attempt (cleared on entry),
      and nothing is searched and the error kind is kept. */
  lemma FetchAttempts(fetch: nat -> FetchOutcome, cid: Option<string>, maxRetries: nat, t: Tracker)
    requires Present(cid) && maxRetries >= 1
    ensures var r := FetchSmiles(fetch, cid, maxRetries, t); var n := |r.after.fetches| - |t.fetches|;
      1 <= n <= maxRetries && var os := Seen(fetch, |t.fetches|, n);
      FetchStopsAt(os, 0, maxRetries)
      && r.smiles == FetchedSmiles(os[n - 1])
      && r.after.searches == t.searches && r.after.lastErrorKind == t.lastErrorKind
      && r.after.lastError ==
           if os[n - 1].FetchRaised? then FetchText(os[n - 1])
           else if n >= 2 then FetchText(os[n - 2])
           else None
  {
    var t0 := t.(lastError := None);
    FetchLoopLog(fetch, cid.value, 0, maxRetries, t0);
    FetchLoopStops(fetch, cid.value, 0, maxRetries, t0);
    FetchLoopError(fetch, cid.value, 0, maxRetries, t0);
  }

  /** A first fetch that reaches the record returns its structure (None if it has none)
      after one call with no error; a first failure that is not transient returns None
      after one call with its text recorded. */
  lemma FetchFirstAttempt(fetch: nat -> FetchOutcome, cid: Option<string>, maxRetries: nat, t: Tracker)
    requires Present(cid) && maxRetries >= 1
    ensures var r := FetchSmiles(fetch, cid, maxRetries, t); var o := fetch(|t.fetches|);
      (o.Fetched? ==> r.smiles == o.smiles && r.after.lastError == None && |r.after.fetches| == |t.fetches| + 1)
      && (o.FetchRaised? && !IsTransient(o.message) ==>
            r.smiles == None && r.after.lastError == Some(ErrorText(o.typeName, o.message))
            && |r.after.fetches| == |t.fetches| + 1)
      && r.after.lastErrorKind == t.lastErrorKind
  {
    FetchLoopLog(fetch, cid.value, 0, maxRetries, t.(lastError := None));
  }

  /** A falsy CID fetches nothing and leaves every field as it was. */
  lemma FetchFalsy(fetch: nat -> FetchOutcome, cid: Option<string>, maxRetries: nat, t: Tracker)
    ensures !Present(cid) ==> FetchSmiles(fetch, cid, maxRetries, t) == Fetch(None, t)
    ensures Present(cid) ==> |FetchSmiles(fetch, cid, maxRetries, t).after.fetches| <= |t.fetches| + maxRetries
  {
    if Present(cid) {
      FetchLoopLog(fetch, cid.value, 0, maxRetries, t.(lastError := None));
    }
  }
}
