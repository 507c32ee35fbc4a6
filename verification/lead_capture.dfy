/**
 The lead submission pipeline: honeypot, rate limit, duplicate-email query,
 payload normalisation, the retrying insert and the offline queue, plus the
 replay of that queue.

 The remote store, the clock, the connectivity flag and local storage are
 parameters: one submission is a pure function from the persisted state and
 an `Environment` (the store's scripted answers among them) to a report of
 the result, the store calls made in order, the back-off delays waited and
 the new persisted state.
 */
module LeadCapture {
  import opened Wrappers
  import opened Text
  import Seqs
  import LV = LeadValidation

  const MaxRetries := 3
  const RetryDelayMs := 2000
  const RateLimitMs := 60_000
  /** PostgreSQL's unique-violation error code. */
  const UniqueViolationCode := "23505"

  const HoneypotMessage := "Cadastro realizado com sucesso!"
  const RateLimitMessage := "Aguarde um momento antes de enviar novamente."
  const DuplicateMessage := "Este email já está cadastrado."
  const SuccessMessage := "Cadastro realizado com sucesso! Em breve entraremos em contato."
  const OfflineMessage := "Você está offline. Seu cadastro será enviado assim que a conexão for restabelecida."
  const ErrorMessage := "Erro ao realizar cadastro. Tente novamente em alguns instantes."

  // ---------------------------------------------------------------- data

  /** The normalised row sent to the `leads` table, and the shape of an offline-queue entry. */
  datatype LeadInsert = LeadInsert(
    name: string,
    email: string,
    phone: string,
    birthday: Option<string>,
    preferences: Option<string>,
    promoCode: Option<string>)

  /** What the store answers to one insert. */
  datatype InsertResponse = Inserted | InsertError(code: string, message: string) | InsertThrew

  /** What the store answers to the duplicate-email query. */
  datatype QueryResponse = Rows(count: nat) | QueryError | QueryThrew

  /** One call made to the remote store. */
  datatype StoreCall = DuplicateQuery(email: string) | Insert(payload: LeadInsert)

  datatype SubmitResult = SubmitResult(success: bool, message: string)

  /** Which path one submission took. */
  datatype Outcome =
    | HoneypotBlocked | RateLimited | DuplicateFound
    | Stored | DuplicateRejected | QueuedOffline | Failed

  /**
   What local storage holds for the pipeline: the last successful submission
   time (`None` when absent or not a number) and the offline queue (`None`
   when the key is absent).
   */
  datatype PersistedState = PersistedState(lastSubmit: Option<int>, offlineQueue: Option<seq<LeadInsert>>)

  /**
   Everything one submission observes from outside: the clock when the rate
   limit is checked and when the timestamp is written, connectivity after
   the retries, whether storage writes succeed, and the store's answers.
   The i-th insert attempt receives `insertResponses[i]`; attempts past its
   end receive `InsertThrew`.
   */
  datatype Environment = Environment(
    now: int,
    savedAt: int,
    online: bool,
    storageWritable: bool,
    duplicateQuery: QueryResponse,
    insertResponses: seq<InsertResponse>)

  datatype SubmitReport = SubmitReport(
    result: SubmitResult,
    outcome: Outcome,
    calls: seq<StoreCall>,
    delays: seq<int>,
    state: PersistedState)

  // ---------------------------------------------------------------- gates

  /** An absent or unreadable timestamp lets the submission through. */
  predicate RateLimitAllows(lastSubmit: Option<int>, now: int) {
    !(lastSubmit.Some? && now - lastSubmit.value < RateLimitMs)
  }

  /** Fail-open: only a successful query with a matching row counts as a duplicate. */
  function IsDuplicate(response: QueryResponse): (dup: bool)
    ensures dup ==> response.Rows?
    ensures response.Rows? ==> (dup <==> response.count > 0)
  {
    match response
    case Rows(n) => n > 0
    case QueryError => false
    case QueryThrew => false
  }

  /** The email the duplicate query filters on. */
  function QueryEmail(email: string): string {
    ToLower(Trim(email))
  }

  // ---------------------------------------------------------------- payload

  /**
   The row built from the form: name and email sanitised (the email also
   lower-cased), the phone reduced to its digits, the birthday converted to
   ISO, the preferences joined with ", ", and no promotion code.
   */
  function BuildPayload(form: LV.LeadFormData): (p: LeadInsert)
    ensures p.name == LV.Sanitize(form.name)
    ensures p.email == ToLower(LV.Sanitize(form.email))
    ensures p.phone == Digits(form.phone) && AllDigits(p.phone)
    ensures p.birthday == LV.BirthdayToIso(form.birthday)
    ensures p.birthday.Some? <==> LV.BirthdayPattern(form.birthday)
    ensures p.preferences.None? <==> form.preferences == []
    ensures form.preferences != [] ==> p.preferences == Some(Join(form.preferences, ", "))
    ensures p.promoCode == None
  {
    LeadInsert(
      LV.Sanitize(form.name),
      ToLower(LV.Sanitize(form.email)),
      Digits(form.phone),
      LV.BirthdayToIso(form.birthday),
      if |form.preferences| > 0 then Some(Join(form.preferences, ", ")) else None,
      None)
  }

  /** Lower-casing neither creates nor removes dangerous or whitespace characters. */
  lemma LowerCharKeepsSafe(c: char)
    ensures LV.IsDangerousChar(LowerChar(c)) == LV.IsDangerousChar(c)
    ensures IsWhitespace(LowerChar(c)) == IsWhitespace(c)
  {
  }

  /** Sanitising a lower-cased sanitised string changes nothing. */
  lemma SanitizeLowerSanitized(s: string)
    requires forall i :: 0 <= i < |s| ==> !LV.IsDangerousChar(s[i])
    requires s == [] || (!IsWhitespace(s[0]) && !IsWhitespace(s[|s| - 1]))
    ensures LV.Sanitize(ToLower(s)) == ToLower(s)
  {
    var e := ToLower(s);
    forall i | 0 <= i < |s| ensures !LV.IsDangerousChar(e[i]) && IsWhitespace(e[i]) == IsWhitespace(s[i]) {
      LowerCharKeepsSafe(s[i]);
    }
    assert '<' !in e by {
      forall i | 0 <= i < |e| ensures e[i] != '<' {
        assert !LV.IsDangerousChar(e[i]);
      }
    }
    assert LV.StripTags(e) == e;
    Seqs.FilterKeepsAll(e, LV.IsSafeChar);
    TrimOfTrimmed(e);
  }

  /**
   The payload's email carries no dangerous character and is already
   normalised: sanitising and lower-casing it again changes nothing.
   */
  lemma PayloadEmailIsNormalised(form: LV.LeadFormData)
    ensures var e := BuildPayload(form).email; forall i :: 0 <= i < |e| ==> !LV.IsDangerousChar(e[i])
    ensures var e := BuildPayload(form).email; ToLower(LV.Sanitize(e)) == e
  {
    var s := LV.Sanitize(form.email);
    SanitizeLowerSanitized(s);
    ToLowerIdempotent(s);
  }

  /** The characters the strict email pattern admits are none of the sanitiser's dangerous ones. */
  lemma EmailPatternIsSafe(s: string)
    requires LV.EmailPattern(s)
    ensures forall i :: 0 <= i < |s| ==> !LV.IsDangerousChar(s[i])
  {
    var at, dot :| 0 < at < dot < |s| && LV.EmailSplit(s, at, dot);
    forall i | 0 <= i < |s| ensures !LV.IsDangerousChar(s[i]) {
      if i < at {
        assert LV.IsEmailLocalChar(s[i]);
      } else if at < i < dot {
        assert LV.IsEmailDomainChar(s[i]);
      } else if dot < i {
        assert IsAsciiLetter(s[i]);
      }
    }
  }

  /** Trimming only drops whitespace, which is never dangerous: a safe trim means a safe string. */
  lemma SafeIfTrimSafe(s: string)
    requires forall i :: 0 <= i < |Trim(s)| ==> !LV.IsDangerousChar(Trim(s)[i])
    ensures forall i :: 0 <= i < |s| ==> !LV.IsDangerousChar(s[i])
  {
    forall i | 0 <= i < |s| ensures !LV.IsDangerousChar(s[i]) {
      if !IsWhitespace(s[i]) {
        NonWhitespaceSurvivesTrim(s, i);
        var j :| 0 <= j < |Trim(s)| && Trim(s)[j] == s[i];
      }
    }
  }

  /**
   For an address the validator accepts, the row stores exactly the address
   the duplicate query looked for: the insert and the query agree.
   */
  lemma ValidEmailIsStoredAsQueried(form: LV.LeadFormData)
    requires LV.ValidateEmail(form.email) == None
    ensures BuildPayload(form).email == QueryEmail(form.email)
  {
    var e := form.email;
    var t := ToLower(Trim(e));
    EmailPatternIsSafe(t);
    forall i | 0 <= i < |Trim(e)| ensures !LV.IsDangerousChar(Trim(e)[i]) {
      LowerCharKeepsSafe(Trim(e)[i]);
    }
    SafeIfTrimSafe(e);
  }

  /** For a name the validator accepts, the row stores the name with its surrounding whitespace trimmed. */
  lemma ValidNameIsStoredTrimmed(form: LV.LeadFormData)
    requires LV.ValidateName(form.name) == None
    ensures BuildPayload(form).name == Trim(form.name)
  {
    var n := Trim(form.name);
    forall i | 0 <= i < |n| ensures !LV.IsDangerousChar(n[i]) {
      assert LV.IsNameChar(n[i]);
    }
    SafeIfTrimSafe(form.name);
  }

  // ---------------------------------------------------------------- insert with retry

  /** The answer the script gives to the attempt with index `k` (from 0). */
  function ResponseAt(script: seq<InsertResponse>, k: nat): InsertResponse {
    if k < |script| then script[k] else InsertThrew
  }

  /** The insert's uniqueness test: code `23505`, or a message mentioning "duplicate". */
  predicate IsUniqueViolation(code: string, message: string) {
    code == UniqueViolationCode || Contains(message, "duplicate")
  }

  /** Answers after which the writer tries again. */
  predicate Retryable(response: InsertResponse) {
    response.InsertThrew? || (response.InsertError? && !IsUniqueViolation(response.code, response.message))
  }

  datatype InsertOutcome = InsertStored | InsertDuplicate | RetriesExhausted

  /** Attempts made (counted from 1) and the delays waited before the second and later attempts. */
  datatype RetryRun = RetryRun(outcome: InsertOutcome, attempts: nat, delays: seq<int>)

  /**
   The writer starting at attempt number `attempt`: a uniqueness violation
   ends it at once, other errors and throws are retried after waiting
   `attempt * 2000` ms, until `MaxRetries` attempts have been made.
   */
  function InsertWithRetry(script: seq<InsertResponse>, attempt: nat): (r: RetryRun)
    requires 1 <= attempt <= MaxRetries
    ensures attempt <= r.attempts <= MaxRetries
    ensures |r.delays| == r.attempts - attempt
    ensures forall i :: 0 <= i < |r.delays| ==> r.delays[i] == RetryDelayMs * (attempt + i)
    ensures forall k :: attempt - 1 <= k < r.attempts - 1 ==> Retryable(ResponseAt(script, k))
    ensures r.outcome == InsertStored <==> ResponseAt(script, r.attempts - 1) == Inserted
    ensures r.outcome == InsertDuplicate <==> !Retryable(ResponseAt(script, r.attempts - 1)) && ResponseAt(script, r.attempts - 1) != Inserted
    ensures r.outcome == RetriesExhausted ==> r.attempts == MaxRetries
    ensures r.attempts < MaxRetries ==> !Retryable(ResponseAt(script, r.attempts - 1))
    decreases MaxRetries - attempt
  {
    var response := ResponseAt(script, attempt - 1);
    if response == Inserted then RetryRun(InsertStored, attempt, [])
    else if !Retryable(response) then RetryRun(InsertDuplicate, attempt, [])
    else if attempt < MaxRetries then
      var rest := InsertWithRetry(script, attempt + 1);
      RetryRun(rest.outcome, rest.attempts, [RetryDelayMs * attempt] + rest.delays)
    else RetryRun(RetriesExhausted, attempt, [])
  }

  /** The delays grow strictly: 2000 ms, then 4000 ms. */
  lemma RetryDelaysIncrease(script: seq<InsertResponse>)
    ensures var d := InsertWithRetry(script, 1).delays;
      |d| <= MaxRetries - 1 && forall i, j :: 0 <= i < j < |d| ==> d[i] < d[j]
  {
  }

  // ---------------------------------------------------------------- offline queue

  /** Appends to the stored queue (an absent key reads as empty); a failed write leaves storage as it was. */
  function SaveOffline(queue: Option<seq<LeadInsert>>, payload: LeadInsert, writable: bool): (r: Option<seq<LeadInsert>>)
    ensures writable ==> var q := queue.GetOr([]);
      r.Some? && |r.value| == |q| + 1 && r.value[..|q|] == q && r.value[|q|] == payload
    ensures !writable ==> r == queue
  {
    if writable then Some(queue.GetOr([]) + [payload]) else queue
  }

  // ---------------------------------------------------------------- submission

  function Repeat<T>(x: T, n: nat): (r: seq<T>)
    ensures |r| == n && forall i :: 0 <= i < n ==> r[i] == x
  {
    seq(n, _ => x)
  }

  /** The honeypot is empty, the rate limit allows the submission and the duplicate query found no row. */
  predicate PassesGates(form: LV.LeadFormData, st: PersistedState, env: Environment) {
    form.website == [] && RateLimitAllows(st.lastSubmit, env.now) && !IsDuplicate(env.duplicateQuery)
  }

  function SubmitLead(form: LV.LeadFormData, st: PersistedState, env: Environment): (r: SubmitReport)
    // honeypot: simulated success, nothing touched
    ensures form.website != [] ==>
      r.outcome == HoneypotBlocked && r.result.success && r.calls == [] && r.delays == [] && r.state == st
    // rate limit: failure before any store call
    ensures form.website == [] && !RateLimitAllows(st.lastSubmit, env.now) ==>
      r.outcome == RateLimited && !r.result.success && r.calls == [] && r.state == st
    // call order: the duplicate query, then at most three identical inserts
    ensures |r.calls| <= 1 + MaxRetries
    ensures r.calls != [] ==> r.calls[0] == DuplicateQuery(QueryEmail(form.email))
    ensures forall i :: 1 <= i < |r.calls| ==> r.calls[i] == Insert(BuildPayload(form))
    ensures |r.delays| == if |r.calls| > 1 then |r.calls| - 2 else 0
    ensures forall i :: 0 <= i < |r.delays| ==> r.delays[i] == RetryDelayMs * (i + 1)
    // fail-open duplicate check; a match stops before any insert
    ensures r.outcome == DuplicateFound <==>
      form.website == [] && RateLimitAllows(st.lastSubmit, env.now) && env.duplicateQuery.Rows? && env.duplicateQuery.count > 0
    ensures r.outcome == DuplicateFound ==> |r.calls| == 1 && !r.result.success && r.state == st
    // only a stored lead updates the rate-limit timestamp
    ensures r.state.lastSubmit != st.lastSubmit ==> r.outcome == Stored && r.state.lastSubmit == Some(env.savedAt)
    ensures r.outcome == Stored && env.storageWritable ==> r.state.lastSubmit == Some(env.savedAt)
    // only an offline exhaustion touches the queue, by appending the payload once
    ensures r.state.offlineQueue != st.offlineQueue ==>
      r.outcome == QueuedOffline && r.state.offlineQueue == Some(st.offlineQueue.GetOr([]) + [BuildPayload(form)])
    ensures r.outcome == QueuedOffline ==> !env.online && |r.calls| == 1 + MaxRetries
    ensures r.outcome == Failed ==> env.online && |r.calls| == 1 + MaxRetries && r.state == st
    ensures r.result.success <==> r.outcome in {HoneypotBlocked, Stored, QueuedOffline}
    // past the gates, the writer's run decides the path
    ensures PassesGates(form, st, env) ==>
      var run := InsertWithRetry(env.insertResponses, 1);
      && |r.calls| == 1 + run.attempts && r.delays == run.delays
      && (r.outcome == Stored <==> run.outcome == InsertStored)
      && (r.outcome == DuplicateRejected <==> run.outcome == InsertDuplicate)
      && (r.outcome == QueuedOffline <==> run.outcome == RetriesExhausted && !env.online)
      && (r.outcome == Failed <==> run.outcome == RetriesExhausted && env.online)
  {
    if form.website != [] then
      SubmitReport(SubmitResult(true, HoneypotMessage), HoneypotBlocked, [], [], st)
    else if !RateLimitAllows(st.lastSubmit, env.now) then
      SubmitReport(SubmitResult(false, RateLimitMessage), RateLimited, [], [], st)
    else
      var query := DuplicateQuery(QueryEmail(form.email));
      if IsDuplicate(env.duplicateQuery) then
        SubmitReport(SubmitResult(false, DuplicateMessage), DuplicateFound, [query], [], st)
      else ReportForRun(form, st, env, InsertWithRetry(env.insertResponses, 1))
  }

  /** The duplicate query followed by `attempts` identical inserts. */
  function CallsFor(form: LV.LeadFormData, attempts: nat): (calls: seq<StoreCall>)
    ensures |calls| == 1 + attempts
    ensures calls[0] == DuplicateQuery(QueryEmail(form.email))
    ensures forall i :: 1 <= i < |calls| ==> calls[i] == Insert(BuildPayload(form))
  {
    [DuplicateQuery(QueryEmail(form.email))] + Repeat(Insert(BuildPayload(form)), attempts)
  }

  /** The report once the writer has finished with `run`. */
  function ReportForRun(form: LV.LeadFormData, st: PersistedState, env: Environment, run: RetryRun): (r: SubmitReport)
    requires 1 <= run.attempts <= MaxRetries && |run.delays| == run.attempts - 1
    requires forall i :: 0 <= i < |run.delays| ==> run.delays[i] == RetryDelayMs * (1 + i)
    requires run.outcome == RetriesExhausted ==> run.attempts == MaxRetries
    ensures 2 <= |r.calls| <= 1 + MaxRetries
    ensures r.calls[0] == DuplicateQuery(QueryEmail(form.email))
    ensures forall i :: 1 <= i < |r.calls| ==> r.calls[i] == Insert(BuildPayload(form))
    ensures |r.delays| == |r.calls| - 2
    ensures forall i :: 0 <= i < |r.delays| ==> r.delays[i] == RetryDelayMs * (i + 1)
    ensures r.outcome in {Stored, DuplicateRejected, QueuedOffline, Failed}
    // the writer's run decides the path: one insert per attempt, its waits, and its verdict
    ensures |r.calls| == 1 + run.attempts && r.delays == run.delays
    ensures r.outcome == Stored <==> run.outcome == InsertStored
    ensures r.outcome == DuplicateRejected <==> run.outcome == InsertDuplicate
    ensures r.outcome == QueuedOffline <==> run.outcome == RetriesExhausted && !env.online
    ensures r.outcome == Failed <==> run.outcome == RetriesExhausted && env.online
    ensures r.state.lastSubmit != st.lastSubmit ==> r.outcome == Stored && r.state.lastSubmit == Some(env.savedAt)
    ensures r.outcome == Stored && env.storageWritable ==> r.state.lastSubmit == Some(env.savedAt)
    ensures r.state.offlineQueue != st.offlineQueue ==>
      r.outcome == QueuedOffline && r.state.offlineQueue == Some(st.offlineQueue.GetOr([]) + [BuildPayload(form)])
    ensures r.outcome == QueuedOffline ==> !env.online && |r.calls| == 1 + MaxRetries
    ensures r.outcome == Failed ==> env.online && |r.calls| == 1 + MaxRetries && r.state == st
    ensures r.outcome == DuplicateRejected ==> r.state == st
    ensures r.result.success <==> r.outcome in {Stored, QueuedOffline}
  {
    var calls := CallsFor(form, run.attempts);
    match run.outcome
    case InsertStored =>
      var stamp := if env.storageWritable then Some(env.savedAt) else st.lastSubmit;
      SubmitReport(SubmitResult(true, SuccessMessage), Stored, calls, run.delays, st.(lastSubmit := stamp))
    case InsertDuplicate =>
      SubmitReport(SubmitResult(false, DuplicateMessage), DuplicateRejected, calls, run.delays, st)
    case RetriesExhausted =>
      if !env.online then
        var queue := SaveOffline(st.offlineQueue, BuildPayload(form), env.storageWritable);
        SubmitReport(SubmitResult(true, OfflineMessage), QueuedOffline, calls, run.delays, st.(offlineQueue := queue))
      else
        SubmitReport(SubmitResult(false, ErrorMessage), Failed, calls, run.delays, st)
  }

  // ---------------------------------------------------------------- replay

  /** Replay keeps an entry unless its insert succeeded or failed with code `23505` (the message is not consulted). */
  predicate StaysQueued(response: InsertResponse) {
    response.InsertThrew? || (response.InsertError? && response.code != UniqueViolationCode)
  }

  function Rest(script: seq<InsertResponse>): seq<InsertResponse> {
    if script == [] then [] else script[1..]
  }

  lemma ResponseAtRest(script: seq<InsertResponse>, k: nat)
    ensures ResponseAt(Rest(script), k) == ResponseAt(script, k + 1)
  {
  }

  /** The entries whose replayed insert did not go through, in queue order. */
  function KeepFailed(entries: seq<LeadInsert>, script: seq<InsertResponse>): (r: seq<LeadInsert>)
    ensures |r| <= |entries|
    ensures (forall i :: 0 <= i < |entries| ==> !StaysQueued(ResponseAt(script, i))) ==> r == []
    ensures (forall i :: 0 <= i < |entries| ==> StaysQueued(ResponseAt(script, i))) ==> r == entries
    decreases |entries|
  {
    if entries == [] then []
    else
      var tail := KeepFailed(entries[1..], Rest(script));
      forall k: nat ensures ResponseAt(Rest(script), k) == ResponseAt(script, k + 1) {
        ResponseAtRest(script, k);
      }
      if StaysQueued(ResponseAt(script, 0)) then [entries[0]] + tail else tail
  }

  /** What replay keeps is an order-preserving selection of the queue. */
  lemma {:induction false} KeepFailedIsSubsequence(entries: seq<LeadInsert>, script: seq<InsertResponse>)
    ensures Seqs.IsSubsequence(KeepFailed(entries, script), entries)
    decreases |entries|
  {
    if entries != [] {
      var tail := KeepFailed(entries[1..], Rest(script));
      KeepFailedIsSubsequence(entries[1..], Rest(script));
      if StaysQueued(ResponseAt(script, 0)) {
        assert ([entries[0]] + tail)[1..] == tail;
      } else {
        Seqs.SubsequenceExtend(tail, entries);
      }
    }
  }

  /** Every entry whose own insert failed without a uniqueness violation is kept. */
  lemma {:induction false} KeepFailedKeeps(entries: seq<LeadInsert>, script: seq<InsertResponse>, i: nat)
    requires i < |entries| && StaysQueued(ResponseAt(script, i))
    ensures entries[i] in KeepFailed(entries, script)
    decreases i
  {
    if i > 0 {
      ResponseAtRest(script, i - 1);
      KeepFailedKeeps(entries[1..], Rest(script), i - 1);
      assert entries[1..][i - 1] == entries[i];
    }
  }

  /** Every kept entry is one whose own insert failed without a uniqueness violation. */
  lemma {:induction false} KeepFailedOnlyFailed(entries: seq<LeadInsert>, script: seq<InsertResponse>, x: LeadInsert)
    requires x in KeepFailed(entries, script)
    ensures exists i :: 0 <= i < |entries| && entries[i] == x && StaysQueued(ResponseAt(script, i))
    decreases |entries|
  {
    var tail := KeepFailed(entries[1..], Rest(script));
    if x in tail {
      KeepFailedOnlyFailed(entries[1..], Rest(script), x);
      var j :| 0 <= j < |entries[1..]| && entries[1..][j] == x && StaysQueued(ResponseAt(Rest(script), j));
      ResponseAtRest(script, j);
      assert entries[j + 1] == x;
    } else {
      assert x == entries[0] && StaysQueued(ResponseAt(script, 0));
    }
  }

  /**
   Replay decides entry by entry: extending the queue by one entry extends
   what is kept by that entry exactly when its own insert fails. With
   `KeepFailed([], script) == []` this determines the kept queue, duplicates
   included.
   */
  lemma {:induction false} KeepFailedStep(entries: seq<LeadInsert>, e: LeadInsert, script: seq<InsertResponse>)
    ensures KeepFailed(entries + [e], script) ==
      KeepFailed(entries, script) + (if StaysQueued(ResponseAt(script, |entries|)) then [e] else [])
    decreases |entries|
  {
    if entries == [] {
      assert entries + [e] == [e];
      assert KeepFailed([e], script) == (if StaysQueued(ResponseAt(script, 0)) then [e] else []);
    } else {
      var s := entries + [e];
      assert s[0] == entries[0] && s[1..] == entries[1..] + [e];
      KeepFailedStep(entries[1..], e, Rest(script));
      ResponseAtRest(script, |entries| - 1);
    }
  }

  datatype ReplayReport = ReplayReport(calls: seq<StoreCall>, queue: Option<seq<LeadInsert>>)

  /**
   One replay pass over the stored queue: one insert per entry, in order;
   the entries still pending are written back, or the key is removed when
   none is. A failed write leaves the stored queue as it was.
   */
  function ReplayOfflineQueue(queue: Option<seq<LeadInsert>>, script: seq<InsertResponse>, writable: bool): (r: ReplayReport)
    ensures queue.None? || queue == Some([]) ==> r.calls == [] && r.queue == queue
    ensures queue.Some? ==> |r.calls| == |queue.value| && forall i :: 0 <= i < |queue.value| ==> r.calls[i] == Insert(queue.value[i])
    ensures queue.Some? && queue.value != [] ==>
      var failed := KeepFailed(queue.value, script);
      r.queue == if failed == [] then None else if writable then Some(failed) else queue
  {
    if queue.None? || queue.value == [] then ReplayReport([], queue)
    else
      var pending := queue.value;
      var failed := KeepFailed(pending, script);
      var calls := seq(|pending|, i requires 0 <= i < |pending| => Insert(pending[i]));
      if failed == [] then ReplayReport(calls, None)
      else if writable then ReplayReport(calls, Some(failed))
      else ReplayReport(calls, queue)
  }

  /**
   A payload saved offline is replayed last, after the entries saved before
   it, and stays queued exactly when its own insert fails again.
   */
  lemma SavedPayloadReplayedLast(queue: Option<seq<LeadInsert>>, payload: LeadInsert, script: seq<InsertResponse>, writable: bool)
    ensures var q := queue.GetOr([]);
      var r := ReplayOfflineQueue(SaveOffline(queue, payload, true), script, writable);
      && |r.calls| == |q| + 1 && r.calls[|q|] == Insert(payload)
      && KeepFailed(q + [payload], script) ==
         KeepFailed(q, script) + (if StaysQueued(ResponseAt(script, |q|)) then [payload] else [])
  {
    var q := queue.GetOr([]);
    assert SaveOffline(queue, payload, true) == Some(q + [payload]);
    KeepFailedStep(q, payload, script);
  }

  // ---------------------------------------------------------------- scenarios

  /** Past the honeypot, the rate limit and the duplicate check, the report is the writer's. */
  lemma SubmitReachesWriter(form: LV.LeadFormData, st: PersistedState, env: Environment)
    requires form.website == [] && RateLimitAllows(st.lastSubmit, env.now) && !IsDuplicate(env.duplicateQuery)
    ensures SubmitLead(form, st, env) == ReportForRun(form, st, env, InsertWithRetry(env.insertResponses, 1))
  {
  }

  /** Three retryable answers in a row exhaust the writer after waits of 2 s and 4 s. */
  lemma ExhaustedRun(script: seq<InsertResponse>)
    requires forall k :: 0 <= k < MaxRetries ==> Retryable(ResponseAt(script, k))
    ensures InsertWithRetry(script, 1) == RetryRun(RetriesExhausted, MaxRetries, [2000, 4000])
  {
    assert Retryable(ResponseAt(script, 0)) && Retryable(ResponseAt(script, 1)) && Retryable(ResponseAt(script, 2));
    assert InsertWithRetry(script, 3) == RetryRun(RetriesExhausted, 3, []);
  }

  /** A valid submission the store accepts at once makes one query and exactly one insert, and succeeds. */
  lemma FirstAttemptSuccess(form: LV.LeadFormData, st: PersistedState, env: Environment)
    requires form.website == [] && RateLimitAllows(st.lastSubmit, env.now)
    requires env.duplicateQuery == Rows(0) && env.insertResponses != [] && env.insertResponses[0] == Inserted
    ensures var r := SubmitLead(form, st, env);
      r.outcome == Stored && r.result.success && r.calls == [DuplicateQuery(QueryEmail(form.email)), Insert(BuildPayload(form))]
      && r.delays == []
  {
    assert !IsDuplicate(env.duplicateQuery);
    SubmitReachesWriter(form, st, env);
    var run := RetryRun(InsertStored, 1, []);
    assert InsertWithRetry(env.insertResponses, 1) == run;
    var calls := CallsFor(form, 1);
    assert calls == [DuplicateQuery(QueryEmail(form.email)), Insert(BuildPayload(form))] by {
      assert calls == [calls[0], calls[1]];
    }
    var r := ReportForRun(form, st, env, run);
    assert r.outcome == Stored && r.calls == calls && r.delays == [];
  }

  /**
   Three retryable answers (throws, or errors other than a uniqueness
   violation) while online: three attempts, waits of 2 s and 4 s, then a
   surfaced failure.
   */
  lemma ThreeFailuresOnline(form: LV.LeadFormData, st: PersistedState, env: Environment)
    requires form.website == [] && RateLimitAllows(st.lastSubmit, env.now)
    requires !IsDuplicate(env.duplicateQuery) && env.online
    requires forall k :: 0 <= k < MaxRetries ==> Retryable(ResponseAt(env.insertResponses, k))
    ensures var r := SubmitLead(form, st, env);
      r.outcome == Failed && !r.result.success && r.result.message == ErrorMessage
      && |r.calls| == 4 && r.delays == [2000, 4000] && r.state == st
  {
    ExhaustedRun(env.insertResponses);
    SubmitReachesWriter(form, st, env);
  }

  /** A lead stored now blocks an identical submission less than 60 s later, before any store call. */
  lemma SecondSubmissionRateLimited(form: LV.LeadFormData, st: PersistedState, env1: Environment, env2: Environment)
    requires env1.storageWritable
    requires SubmitLead(form, st, env1).outcome == Stored
    requires env1.savedAt <= env2.now < env1.savedAt + RateLimitMs
    ensures var r := SubmitLead(form, SubmitLead(form, st, env1).state, env2);
      r.outcome == RateLimited && r.calls == []
  {
  }

  /** A lead queued offline sits in the queue exactly once, and a replay the store accepts empties the queue. */
  lemma OfflineThenReplay(form: LV.LeadFormData, env: Environment)
    requires form.website == [] && !IsDuplicate(env.duplicateQuery)
    requires !env.online && env.storageWritable
    requires forall k :: 0 <= k < MaxRetries ==> ResponseAt(env.insertResponses, k) == InsertThrew
    ensures var r := SubmitLead(form, PersistedState(None, None), env);
      && r.outcome == QueuedOffline && r.result.success
      && r.state.offlineQueue == Some([BuildPayload(form)])
      && ReplayOfflineQueue(r.state.offlineQueue, [Inserted], true).queue == None
  {
    var st := PersistedState(None, None);
    var payload := BuildPayload(form);
    var run := InsertWithRetry(env.insertResponses, 1);
    ExhaustedOutcome(env.insertResponses);
    assert RateLimitAllows(st.lastSubmit, env.now);
    SubmitReachesWriter(form, st, env);
    OfflineReport(form, st, env, run);
    assert st.offlineQueue.GetOr([]) + [payload] == SaveOffline(None, payload, true).value;
    FirstQueuedEntry(payload);
    AcceptedReplayEmptiesQueue(payload);
  }

  /** Throws on every attempt exhaust the writer. */
  lemma ExhaustedOutcome(script: seq<InsertResponse>)
    requires forall k :: 0 <= k < MaxRetries ==> ResponseAt(script, k) == InsertThrew
    ensures InsertWithRetry(script, 1).outcome == RetriesExhausted
  {
    var run := InsertWithRetry(script, 1);
    assert ResponseAt(script, run.attempts - 1) == InsertThrew;
  }

  /** An exhausted writer while offline queues the payload behind what was stored. */
  lemma OfflineReport(form: LV.LeadFormData, st: PersistedState, env: Environment, run: RetryRun)
    requires !env.online && env.storageWritable
    requires 1 <= run.attempts <= MaxRetries && |run.delays| == run.attempts - 1
    requires forall i :: 0 <= i < |run.delays| ==> run.delays[i] == RetryDelayMs * (1 + i)
    requires run.outcome == RetriesExhausted && run.attempts == MaxRetries
    ensures var r := ReportForRun(form, st, env, run);
      r.outcome == QueuedOffline && r.result.success && r.state.offlineQueue == Some(st.offlineQueue.GetOr([]) + [BuildPayload(form)])
  {
  }

  /** Saving to an absent queue creates a queue of one. */
  lemma FirstQueuedEntry(payload: LeadInsert)
    ensures SaveOffline(None, payload, true) == Some([payload])
  {
    assert [] + [payload] == [payload];
  }

  /** Replaying a one-entry queue that the store accepts removes the key. */
  lemma AcceptedReplayEmptiesQueue(payload: LeadInsert)
    ensures ReplayOfflineQueue(Some([payload]), [Inserted], true).queue == None
  {
    assert !StaysQueued(ResponseAt([Inserted], 0));
    assert KeepFailed([payload], [Inserted]) == [];
  }
}
