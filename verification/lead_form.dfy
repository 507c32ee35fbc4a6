/**
 The state-handling half of the lead capture form component: which field
 the visitor completed last, the progress milestones reported once each,
 the preference toggle, the saved and restored draft, and the change, blur,
 terms, submit and reset handlers.
 */
module LeadForm {
  import opened Wrappers
  import opened Text
  import Seqs
  import LV = LeadValidation
  import LC = LeadCapture

  // ---------------------------------------------------------------- last field

  /** The field reported with a progress milestone: the first filled one, looking from the bottom of the form. */
  function GetLastField(data: LV.LeadFormData): (f: string)
    ensures f in {"preferences", "birthday", "phone", "email", "name", ""}
    // looking from the bottom: preferences, then birthday, phone, email and name
    ensures f == "preferences" <==> data.preferences != []
    ensures f == "birthday" <==> data.preferences == [] && data.birthday != []
    ensures f == "phone" <==> data.preferences == [] && data.birthday == [] && |Digits(data.phone)| >= 10
    ensures f == "email" <==>
      data.preferences == [] && data.birthday == [] && |Digits(data.phone)| < 10 && data.email != []
    ensures f == "name" <==>
      data.preferences == [] && data.birthday == [] && |Digits(data.phone)| < 10 && data.email == [] && data.name != []
    ensures f == "" <==>
      data.preferences == [] && data.birthday == [] && |Digits(data.phone)| < 10 && data.email == [] && data.name == []
  {
    if |data.preferences| > 0 then "preferences"
    else if data.birthday != [] then "birthday"
    else if |Digits(data.phone)| >= 10 then "phone"
    else if data.email != [] then "email"
    else if data.name != [] then "name"
    else ""
  }

  /** The fields in the order the form shows them, top to bottom. */
  datatype FormField = FieldName | FieldEmail | FieldPhone | FieldBirthday | FieldPreferences
  {
    /** Position on the form, from the top. */
    function Position(): nat {
      match this
      case FieldName => 0
      case FieldEmail => 1
      case FieldPhone => 2
      case FieldBirthday => 3
      case FieldPreferences => 4
    }

    /** The label the analytics event carries. */
    function Label(): string {
      match this
      case FieldName => "name"
      case FieldEmail => "email"
      case FieldPhone => "phone"
      case FieldBirthday => "birthday"
      case FieldPreferences => "preferences"
    }
  }

  /** Whether the field counts as filled for the last-field label (the phone needs ten digits; nothing is trimmed). */
  predicate FieldFilled(data: LV.LeadFormData, f: FormField) {
    match f
    case FieldName => data.name != []
    case FieldEmail => data.email != []
    case FieldPhone => |Digits(data.phone)| >= 10
    case FieldBirthday => data.birthday != []
    case FieldPreferences => data.preferences != []
  }

  /**
   The reported field is the filled field lowest on the form: it is filled and
   every field below it is empty; "" exactly when no field is filled.
   */
  lemma LastFieldIsLowestFilled(data: LV.LeadFormData)
    ensures GetLastField(data) == "" <==> forall f: FormField :: !FieldFilled(data, f)
    ensures forall f: FormField :: f.Label() == GetLastField(data) ==>
      FieldFilled(data, f) && forall g: FormField :: g.Position() > f.Position() ==> !FieldFilled(data, g)
  {
    if forall f: FormField :: !FieldFilled(data, f) {
      assert !FieldFilled(data, FieldName) && !FieldFilled(data, FieldEmail) && !FieldFilled(data, FieldPhone);
      assert !FieldFilled(data, FieldBirthday) && !FieldFilled(data, FieldPreferences);
    }
  }

  /** When no field is reported the progress bar is empty. */
  lemma NoLastFieldMeansNoProgress(data: LV.LeadFormData)
    requires GetLastField(data) == ""
    ensures LV.ProgressPercentage(data) == 0
  {
    assert Blank(data.name) && Blank(data.email);
  }

  /**
   The converse fails: a name of spaces is reported as the last field while
   the progress bar, which trims, still counts nothing.
   */
  lemma BlankNameReportedButNotCounted()
    ensures var data := LV.EmptyForm.(name := "   ");
      GetLastField(data) == "name" && LV.ProgressPercentage(data) == 0
  {
    var data := LV.EmptyForm.(name := "   ");
    assert Blank(data.name);
    assert Blank(data.email);
  }

  // ---------------------------------------------------------------- milestones

  const Milestones: seq<int> := [33, 66, 100]

  /** The milestones reported by one run of the progress effect, and the last milestone afterwards. */
  datatype MilestoneStep = MilestoneStep(events: seq<int>, last: int)

  /** A threshold is due when the percentage has reached it and the last report is below it. */
  predicate Due(last: int, pct: int, t: int) {
    last < t <= pct
  }

  /**
   Walks the thresholds in order, reporting each one that is due and
   raising the last report to it.
   */
  function EmitFrom(thresholds: seq<int>, pct: int, last: int): (r: MilestoneStep)
    requires Seqs.StrictlyIncreasing(thresholds)
    ensures Seqs.StrictlyIncreasing(r.events)
    ensures forall t :: t in r.events <==> t in thresholds && Due(last, pct, t)
    ensures r.events == [] ==> r.last == last
    ensures r.events != [] ==> r.last == r.events[|r.events| - 1]
    decreases |thresholds|
  {
    if thresholds == [] then MilestoneStep([], last)
    else
      var t := thresholds[0];
      var tail := thresholds[1..];
      TailIncreasing(thresholds);
      if pct >= t && last < t then
        var rest := EmitFrom(tail, pct, t);
        ConcatIncreasing([t], rest.events, t);
        MilestoneStep([t] + rest.events, if rest.events == [] then t else rest.last)
      else
        EmitFrom(tail, pct, last)
  }

  lemma TailIncreasing(s: seq<int>)
    requires s != [] && Seqs.StrictlyIncreasing(s)
    ensures Seqs.StrictlyIncreasing(s[1..])
    ensures forall i :: 0 <= i < |s[1..]| ==> s[0] < s[1..][i]
  {
    forall i | 0 <= i < |s[1..]| ensures s[0] < s[1..][i] {
      assert s[1..][i] == s[i + 1];
    }
  }

  function EmitMilestones(pct: int, last: int): (r: MilestoneStep)
    ensures Seqs.StrictlyIncreasing(r.events)
    ensures forall t :: t in r.events <==> t in Milestones && Due(last, pct, t)
    ensures r.events != [] ==> r.last == r.events[|r.events| - 1]
    ensures r.events == [] ==> r.last == last
    ensures r.last >= last
  {
    assert Seqs.StrictlyIncreasing(Milestones);
    EmitFrom(Milestones, pct, last)
  }

  lemma LastIsLargest(s: seq<int>)
    requires Seqs.StrictlyIncreasing(s)
    ensures forall t :: t in s ==> t <= s[|s| - 1]
  {
    forall t | t in s ensures t <= s[|s| - 1] {
      var i :| 0 <= i < |s| && s[i] == t;
      assert i == |s| - 1 || s[i] < s[|s| - 1];
    }
  }

  lemma ConcatIncreasing(a: seq<int>, b: seq<int>, m: int)
    requires Seqs.StrictlyIncreasing(a) && Seqs.StrictlyIncreasing(b)
    requires forall x :: x in a ==> x <= m
    requires forall y :: y in b ==> m < y
    ensures Seqs.StrictlyIncreasing(a + b)
  {
    forall i, j | 0 <= i < j < |a + b| ensures (a + b)[i] < (a + b)[j] {
      if j < |a| {
      } else if i >= |a| {
        assert (a + b)[i] == b[i - |a|] && (a + b)[j] == b[j - |a|];
      } else {
        assert (a + b)[i] == a[i] && a[i] in a;
        assert (a + b)[j] == b[j - |a|] && b[j - |a|] in b;
      }
    }
  }

  /** The progress effect run once per edit, with percentages `pcts`, starting from `last`. */
  function TrackProgress(pcts: seq<int>, last: int): (r: MilestoneStep)
    ensures StepFrom(r, last)
    decreases |pcts|
  {
    if pcts == [] then MilestoneStep([], last)
    else
      var step := EmitMilestones(pcts[0], last);
      EmitIsStep(pcts[0], last);
      var rest := TrackProgress(pcts[1..], step.last);
      ChainSteps(step, rest, last);
      MilestoneStep(step.events + rest.events, if rest.events == [] then step.last else rest.last)
  }

  /** What one run of the effect reports, relative to the milestone it started from. */
  predicate StepFrom(step: MilestoneStep, last: int) {
    && Seqs.StrictlyIncreasing(step.events)
    && (forall t :: t in step.events ==> t in Milestones && last < t)
    && step.last >= last
    && (step.events != [] ==> step.last == step.events[|step.events| - 1])
    && (step.events == [] ==> step.last == last)
  }

  lemma EmitIsStep(pct: int, last: int)
    ensures StepFrom(EmitMilestones(pct, last), last)
  {
    var step := EmitMilestones(pct, last);
    forall t | t in step.events ensures t in Milestones && last < t {
      assert Due(last, pct, t);
    }
  }

  /** Two consecutive runs report together what one run from the first start would. */
  lemma ChainSteps(step: MilestoneStep, rest: MilestoneStep, last: int)
    requires StepFrom(step, last) && StepFrom(rest, step.last)
    ensures StepFrom(MilestoneStep(step.events + rest.events, if rest.events == [] then step.last else rest.last), last)
  {
    LastIsLargest(step.events);
    ConcatIncreasing(step.events, rest.events, step.last);
    var events := step.events + rest.events;
    if rest.events != [] {
      assert events[|events| - 1] == rest.events[|rest.events| - 1];
    } else {
      assert events == step.events;
    }
  }

  /** Between resets no milestone is reported twice. */
  lemma MilestonesAtMostOnce(pcts: seq<int>)
    ensures var events := TrackProgress(pcts, 0).events;
      |events| <= 3 && forall i, j :: 0 <= i < j < |events| ==> events[i] != events[j]
  {
    var events := TrackProgress(pcts, 0).events;
    MilestonesBound(events);
  }

  lemma MilestonesBound(events: seq<int>)
    requires Seqs.StrictlyIncreasing(events) && forall t :: t in events ==> t in Milestones
    ensures |events| <= 3
  {
    if |events| > 3 {
      NoFourIncreasingMilestones(events[0], events[1], events[2], events[3]);
      assert false;
    }
  }

  lemma NoFourIncreasingMilestones(a: int, b: int, c: int, d: int)
    requires a < b < c < d
    ensures !(a in Milestones && b in Milestones && c in Milestones && d in Milestones)
  {
  }

  /** A completely filled form reports all three milestones from a fresh start. */
  lemma FullFormReportsAll()
    ensures EmitMilestones(100, 0).events == [33, 66, 100]
  {
    var r := EmitMilestones(100, 0);
    assert 33 in r.events && 66 in r.events && 100 in r.events;
    MilestonesBound(r.events);
    assert r.events[0] < r.events[1] < r.events[2];
  }

  // ---------------------------------------------------------------- preferences

  /** Removes the option when selected, else appends it. */
  function TogglePreference(prefs: seq<string>, option: string): (r: seq<string>)
    ensures option in r <==> option !in prefs
    ensures forall x :: x != option ==> (x in r <==> x in prefs)
    ensures option !in prefs ==> r == prefs + [option]
    ensures option in prefs ==> forall x :: multiset(r)[x] == if x != option then multiset(prefs)[x] else 0
  {
    if option in prefs then
      assert forall x :: multiset(Seqs.Filter(prefs, p => p != option))[x] == if x != option then multiset(prefs)[x] else 0 by {
        forall x ensures multiset(Seqs.Filter(prefs, p => p != option))[x] == if x != option then multiset(prefs)[x] else 0 {
          Seqs.FilterMultiplicity(prefs, p => p != option, x);
        }
      }
      Seqs.Filter(prefs, p => p != option)
    else prefs + [option]
  }

  /** Toggling an option that was off twice restores the list. */
  lemma ToggleTwice(prefs: seq<string>, option: string)
    requires option !in prefs
    ensures TogglePreference(TogglePreference(prefs, option), option) == prefs
  {
    Seqs.FilterAppend(prefs, [option], p => p != option);
    Seqs.FilterKeepsAll(prefs, p => p != option);
    assert Seqs.Filter([option], p => p != option) == [] by {
      assert [option][1..] == [];
    }
  }

  /** Toggling an option that was on removes every copy and keeps the rest in order. */
  lemma ToggleOffKeepsOrder(prefs: seq<string>, option: string)
    requires option in prefs
    ensures Seqs.IsSubsequence(TogglePreference(prefs, option), prefs)
    ensures |TogglePreference(prefs, option)| < |prefs|
  {
    Seqs.FilterIsSubsequence(prefs, p => p != option);
    FilterDropsSomething(prefs, p => p != option, option);
  }

  lemma {:induction false} FilterDropsSomething(s: seq<string>, p: string -> bool, x: string)
    requires x in s && !p(x)
    ensures |Seqs.Filter(s, p)| < |s|
  {
    if s[0] != x {
      FilterDropsSomething(s[1..], p, x);
    }
  }

  // ---------------------------------------------------------------- draft

  /** The saved draft: the form minus `terms` and `website`; a field absent from the stored JSON is `None`. */
  datatype Draft = Draft(
    name: Option<string>,
    email: Option<string>,
    phone: Option<string>,
    birthday: Option<string>,
    preferences: Option<seq<string>>)

  function SaveDraft(data: LV.LeadFormData): (d: Draft)
    ensures d.name.Some? && d.email.Some? && d.phone.Some? && d.birthday.Some? && d.preferences.Some?
  {
    Draft(Some(data.name), Some(data.email), Some(data.phone), Some(data.birthday), Some(data.preferences))
  }

  /**
   Merges a stored draft over the current form; the consent box and the
   honeypot are always cleared. No stored draft leaves the form as it is.
   */
  function RestoreDraft(current: LV.LeadFormData, saved: Option<Draft>): (r: LV.LeadFormData)
    ensures saved.None? ==> r == current
    ensures saved.Some? ==> !r.terms && r.website == []
    // a stored field replaces the current one; a field absent from the draft keeps its value
    ensures saved.Some? ==> r.name == saved.value.name.GetOr(current.name)
    ensures saved.Some? ==> r.email == saved.value.email.GetOr(current.email)
    ensures saved.Some? ==> r.phone == saved.value.phone.GetOr(current.phone)
    ensures saved.Some? ==> r.birthday == saved.value.birthday.GetOr(current.birthday)
    ensures saved.Some? ==> r.preferences == saved.value.preferences.GetOr(current.preferences)
  {
    match saved
    case None => current
    case Some(d) =>
      LV.LeadFormData(
        d.name.GetOr(current.name),
        d.email.GetOr(current.email),
        d.phone.GetOr(current.phone),
        d.birthday.GetOr(current.birthday),
        d.preferences.GetOr(current.preferences),
        false,
        "")
  }

  /** Saving then restoring gives back every field except the consent box and the honeypot. */
  lemma DraftRoundTrip(current: LV.LeadFormData, data: LV.LeadFormData)
    ensures RestoreDraft(current, Some(SaveDraft(data))) == data.(terms := false, website := "")
  {
  }

  /** A restored form saves to the draft it came from. */
  lemma DraftSaveAfterRestore(current: LV.LeadFormData, data: LV.LeadFormData)
    ensures SaveDraft(RestoreDraft(current, Some(SaveDraft(data)))) == SaveDraft(data)
  {
  }

  // ---------------------------------------------------------------- handlers

  /** The inputs wired to the change handler; `WebsiteInput` is the honeypot. */
  datatype InputName = NameInput | EmailInput | PhoneInput | BirthdayInput | WebsiteInput

  /** The error key an input's error is stored under, if it has one. */
  function ErrorKey(input: InputName): (k: Option<LV.Field>)
    ensures k.None? <==> input == WebsiteInput
  {
    match input
    case NameInput => Some(LV.Name)
    case EmailInput => Some(LV.Email)
    case PhoneInput => Some(LV.Phone)
    case BirthdayInput => Some(LV.Birthday)
    case WebsiteInput => None
  }

  /** The component's state: the form, the displayed errors, the success panel and the last reported milestone. */
  datatype FormState = FormState(data: LV.LeadFormData, errors: LV.ValidationErrors, showSuccess: bool, lastMilestone: int)

  const InitialState := FormState(LV.EmptyForm, map[], false, 0)

  function SetInput(data: LV.LeadFormData, input: InputName, value: string): LV.LeadFormData {
    match input
    case NameInput => data.(name := value)
    case EmailInput => data.(email := value)
    case PhoneInput => data.(phone := LV.FormatPhoneInput(value))
    case BirthdayInput => data.(birthday := LV.FormatBirthdayInput(value))
    case WebsiteInput => data.(website := value)
  }

  /** Phone and birthday edits are stored masked, the others verbatim; the edited field's error is dropped. */
  function HandleChange(s: FormState, input: InputName, value: string): (r: FormState)
    ensures input == PhoneInput ==> r.data == s.data.(phone := LV.FormatPhoneInput(value))
    ensures input == PhoneInput ==> Digits(r.data.phone) == LV.LeadingDigits(value, 11)
    ensures input == BirthdayInput ==> r.data == s.data.(birthday := LV.FormatBirthdayInput(value))
    ensures input == BirthdayInput ==> Digits(r.data.birthday) == LV.LeadingDigits(value, 8)
    ensures input == NameInput ==> r.data == s.data.(name := value)
    ensures input == EmailInput ==> r.data == s.data.(email := value)
    ensures input == WebsiteInput ==> r.data == s.data.(website := value)
    ensures r.data.preferences == s.data.preferences && r.data.terms == s.data.terms
    ensures ErrorKey(input).Some? ==> ErrorKey(input).value !in r.errors
    ensures forall k :: k in r.errors <==> k in s.errors && Some(k) != ErrorKey(input)
    ensures forall k :: k in r.errors ==> r.errors[k] == s.errors[k]
    ensures r.showSuccess == s.showSuccess && r.lastMilestone == s.lastMilestone
  {
    var errors := if ErrorKey(input).Some? then s.errors - {ErrorKey(input).value} else s.errors;
    s.(data := SetInput(s.data, input, value), errors := errors)
  }

  /** The checkbox state; only a definite tick counts as accepting. */
  datatype CheckState = Checked | Unchecked | Indeterminate

  function HandleTermsChange(s: FormState, state: CheckState): (r: FormState)
    ensures r.data.terms <==> state == Checked
    ensures r.data == s.data.(terms := r.data.terms)
    ensures state == Checked ==> r.errors == s.errors - {LV.Terms}
    ensures state != Checked ==> r.errors == s.errors
  {
    var accepted := state == Checked;
    s.(data := s.data.(terms := accepted), errors := if accepted then s.errors - {LV.Terms} else s.errors)
  }

  /** The validator the blur handler runs for an input, if any. */
  function BlurCheck(input: InputName, value: string): Option<LV.FieldError> {
    match input
    case NameInput => LV.ValidateName(value)
    case EmailInput => LV.ValidateEmail(value)
    case PhoneInput => LV.ValidatePhone(value)
    case BirthdayInput => None
    case WebsiteInput => None
  }

  /** Blur can add or overwrite the field's error but never removes one. */
  function HandleBlur(s: FormState, input: InputName, value: string): (r: FormState)
    ensures r.data == s.data && r.showSuccess == s.showSuccess && r.lastMilestone == s.lastMilestone
    ensures s.errors.Keys <= r.errors.Keys
    ensures forall k :: k in r.errors && Some(k) != ErrorKey(input) ==> k in s.errors && r.errors[k] == s.errors[k]
    ensures input in {BirthdayInput, WebsiteInput} ==> r.errors == s.errors
    ensures input == NameInput && LV.ValidateName(value).Some? ==> r.errors == s.errors[LV.Name := LV.ValidateName(value).value]
    ensures input == NameInput && LV.ValidateName(value).None? ==> r.errors == s.errors
    ensures input == EmailInput && LV.ValidateEmail(value).Some? ==> r.errors == s.errors[LV.Email := LV.ValidateEmail(value).value]
    ensures input == EmailInput && LV.ValidateEmail(value).None? ==> r.errors == s.errors
    ensures input == PhoneInput && LV.ValidatePhone(value).Some? ==> r.errors == s.errors[LV.Phone := LV.ValidatePhone(value).value]
    ensures input == PhoneInput && LV.ValidatePhone(value).None? ==> r.errors == s.errors
  {
    var err := BlurCheck(input, value);
    if err.Some? && ErrorKey(input).Some? then s.(errors := s.errors[ErrorKey(input).value := err.value]) else s
  }

  /** The value an input shows, which is what its blur event carries. */
  function Shown(data: LV.LeadFormData, input: InputName): string {
    match input
    case NameInput => data.name
    case EmailInput => data.email
    case PhoneInput => data.phone
    case BirthdayInput => data.birthday
    case WebsiteInput => data.website
  }

  /**
   Editing a field and leaving it: the field's error is shown exactly when
   the validator rejects the stored (for the phone, masked) value, and
   holds that validator's error.
   */
  lemma ChangeThenBlur(s: FormState, input: InputName, value: string)
    requires input in {NameInput, EmailInput, PhoneInput}
    ensures var c := HandleChange(s, input, value);
      var b := HandleBlur(c, input, Shown(c.data, input));
      var err := BlurCheck(input, Shown(c.data, input));
      && (ErrorKey(input).value in b.errors <==> err.Some?)
      && (err.Some? ==> b.errors[ErrorKey(input).value] == err.value)
      && b.data == c.data
  {
  }

  /** The milestone effect after an edit. */
  function AfterEdit(s: FormState): (r: FormState)
    ensures r.lastMilestone >= s.lastMilestone
    ensures r.data == s.data && r.errors == s.errors
  {
    s.(lastMilestone := EmitMilestones(LV.ProgressPercentage(s.data), s.lastMilestone).last)
  }

  /** What submitting did: the new state, and the pipeline's report when the form reached it. */
  datatype SubmitStep = SubmitStep(state: FormState, report: Option<LC.SubmitReport>, draftRemoved: bool)

  /** Validate everything; only an error-free form goes to the pipeline; success shows the panel and drops the draft. */
  function HandleSubmit(s: FormState, today: LV.CalendarDate, st: LC.PersistedState, env: LC.Environment): (r: SubmitStep)
    ensures r.state.errors == LV.ValidateLeadForm(s.data, today)
    ensures r.report.Some? <==> !LV.HasErrors(LV.ValidateLeadForm(s.data, today))
    ensures r.report.Some? ==> r.report.value == LC.SubmitLead(s.data, st, env)
    ensures r.draftRemoved <==> r.report.Some? && r.report.value.result.success
    ensures r.state.showSuccess <==> s.showSuccess || r.draftRemoved
    ensures r.state.data == s.data && r.state.lastMilestone == s.lastMilestone
  {
    var errors := LV.ValidateLeadForm(s.data, today);
    if LV.HasErrors(errors) then SubmitStep(s.(errors := errors), None, false)
    else
      var report := LC.SubmitLead(s.data, st, env);
      SubmitStep(s.(errors := errors, showSuccess := s.showSuccess || report.result.success), Some(report), report.result.success)
  }

  /** An invalid form never reaches the store. */
  lemma InvalidFormMakesNoCalls(s: FormState, today: LV.CalendarDate, st: LC.PersistedState, env: LC.Environment)
    requires !s.data.terms
    ensures HandleSubmit(s, today, st, env).report == None
    ensures LV.Terms in HandleSubmit(s, today, st, env).state.errors
  {
  }

  /**
   Clears the form, the success panel and the milestone record; displayed
   errors are left as they were.
   */
  function HandleReset(s: FormState): (r: FormState)
    ensures r.data == LV.EmptyForm && !r.showSuccess && r.lastMilestone == 0
    ensures r.errors == s.errors
  {
    FormState(LV.EmptyForm, s.errors, false, 0)
  }

  /** After a reset the milestones are reported afresh. */
  lemma ResetRearmsMilestones(s: FormState, pct: int)
    requires pct >= 33
    ensures 33 in EmitMilestones(pct, HandleReset(s).lastMilestone).events
  {
  }
}
