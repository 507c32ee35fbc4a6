# Flor do Maracujá site — a Dafny model of its logic

The Flor do Maracujá site is a restaurant web site built with React and Supabase. Once the
clock, the browser storage and the Supabase back end are passed in as parameters, most of
its behaviour is plain string, integer and sequence logic. This project models that logic
in Dafny 4.11 and proves what the code promises about it. It covers:

- the lead-capture library, in `lead_validation.dfy`. This is the field validators, the
  whole-form validator, the phone and birthday typing masks, the `DD/MM/YYYY` to ISO
  converter, the sanitiser and the progress percentage.
- the lead submission pipeline, in `lead_capture.dfy`. It runs a honeypot check, then a
  60-second rate limit, then a duplicate-email query that lets the lead through when the
  query fails. After those come the normalised payload, up to three insert attempts with
  linear backoff, the offline queue, and the replay of that queue.
  - `SubmitLead` is a pure function of the form, the persisted state and an `Environment`.
    The environment holds the clock readings, the `online` flag, the duplicate query's answer
    and a script of insert answers.
  - It returns the result, the trace of store calls, the backoff delays and the new
    persisted state.
- the lead quality score, in `analytics.dfy`.
- the lead form component's own rules, in `lead_form.dfy`: the last-field label, the progress
  milestones, the preference toggle, the draft save and restore, and the change, blur,
  submit and reset handlers.
- the client store, in `store.dfy`: the cart, the theme flag, the admin password check and
  the id-keyed collections. Every store action is dispatched through one `Dispatch` function.
- the shared utilities, in `utils.dfy`: the opening hours, the loose email check, the display
  phone format and the category icon.
- the printable menu's data preparation, in `menu_pdf.dfy`. This is the category grouping and
  its stable order, the item options, the badge line and the date strings.
- the image upload rules, in `image_storage.dfy`.
- the legacy "cliente especial" dialog, in `cliente_especial.dfy`.
- the menu section's category chips, quantity stepper and add-to-cart, in `menu_section.dfy`.
- the testimonial and promo-banner carousels, in `carousel.dfy`.

Shared helpers live in `wrappers.dfy` (`Option`, `Result`), `text.dfy` and `seqs.dfy`.
`text.dfy` holds the character classes, digit stripping, trimming, Latin-1 case mapping,
decimal rendering and parsing, and UTF-16 length. `seqs.dfy` holds filtering,
subsequences, first index and a stable bucket sort.

Some behaviours of the code worth knowing up front:
- The typing mask splits a ten-digit phone 5-3 (`(DD) DDDDD-DDD`); only the display
  formatter in `src/lib/utils.ts` splits it 4-4 (`(DD) DDDD-DDDD`).
- The duplicate check returns `false` when its query errors or throws, so a failed query
  lets the submission through as "not a duplicate".
- The hook does not guard against a second submission while one is still running; only the
  60-second rate limit separates submissions.
- The queue replay treats only the code `23505` as "already stored". The insert-with-retry
  also accepts a message containing "duplicate".

## Model

| member | source | states |
|---|---|---|
| LeadValidation.ValidateName | src/lib/leadValidation.ts:55-61 | Blank after trimming gives "required". Otherwise fewer than 3 UTF-16 units gives "too short". Otherwise any character outside letters, Latin-1 accented letters and whitespace gives "invalid characters". Accepted exactly when the trimmed name has at least 3 units, all allowed. |
| LeadValidation.ValidateEmail | src/lib/leadValidation.ts:64-72 | Each outcome holds exactly in its own case, in this order: "required" for a blank address; "bad format" when the trimmed, lower-cased text fails the strict pattern; "disposable" when the domain after the `@` is one of the listed throwaway domains; otherwise accepted. |
| LeadValidation.EmailCaseInsensitive | src/lib/leadValidation.ts:64-72 | Lower-casing the input first never changes the verdict. |
| LeadValidation.ValidatePhone | src/lib/leadValidation.ts:75-80 | Accepted exactly when the input has 10 or 11 digits once non-digits are dropped. "Required" exactly when it has no digit at all. |
| LeadValidation.AgeMatchesEighteenthBirthday | src/lib/leadValidation.ts:102-109 | The year/month/day age computation gives at least 18 exactly when the 18th birthday is on or before today. |
| LeadValidation.ValidateBirthday | src/lib/leadValidation.ts:83-112 | Accepted exactly for "" or for a real calendar date in `DD/MM/YYYY`, with 1900 <= year <= this year, whose 18th birthday has passed. Leap years are checked. The format error fires exactly for non-empty text of another shape. For the right shape the checks run in order, each error exactly when the earlier checks pass and its own fails: month outside 1..12, day outside 1..31, year outside 1900..this year, a day past the month's length, then an age under 18. |
| LeadValidation.CollectErrors | src/lib/leadValidation.ts:125-130 | A field has a key exactly when its check found an error, and the key holds that error. |
| LeadValidation.ValidateLeadForm | src/lib/leadValidation.ts:115-133 | Each field has a key exactly when its validator reports an error, and `terms` exactly when the box is unticked. Each key holds its validator's message. |
| LeadValidation.NoErrorsIffAllChecksPass | src/lib/leadValidation.ts:115-137 | `hasErrors` is false exactly when all four validators accept and the terms are ticked. |
| LeadValidation.CollectedNothingIffAllNone | src/lib/leadValidation.ts:135-137 | The collected map is empty exactly when every check came back empty. |
| LeadValidation.FormatPhoneInput | src/lib/leadValidation.ts:142-147 | The mask's digits are exactly the first 11 digits of the input. |
| LeadValidation.FormatPhoneInputIdempotent | src/lib/leadValidation.ts:142-147 | Masking a masked phone changes nothing. |
| LeadValidation.PhoneMaskShape | src/lib/leadValidation.ts:142-147 | From 8 digits on, the mask is `(` d0 d1 `) ` d2..d6 `-` d7..., so ten digits split 5-3. |
| LeadValidation.FormatBirthdayInput | src/lib/leadValidation.ts:150-155 | The mask's digits are exactly the first 8 digits of the input. |
| LeadValidation.FormatBirthdayInputIdempotent | src/lib/leadValidation.ts:150-155 | Masking a masked birthday changes nothing. |
| LeadValidation.FullBirthdayMask | src/lib/leadValidation.ts:150-155 | Eight digits fill the mask to the full `DD/MM/YYYY` shape. |
| LeadValidation.BirthdayToIso | src/lib/leadValidation.ts:158-163 | Gives a value exactly for `DD/MM/YYYY` text, and "" gets none. The value has ten characters with dashes at positions 4 and 7. |
| LeadValidation.BirthdayMaskThenIso | src/lib/leadValidation.ts:150-163 | Eight typed digits DDMMYYYY, masked and then converted, give `YYYY-MM-DD` by reordering the fields. |
| LeadValidation.IsoConversionSkipsCalendar | src/lib/leadValidation.ts:158-163 | The converter does no calendar check: "31/02/2000" converts, while the validator rejects it as an invalid date. |
| LeadValidation.StripTags | src/lib/leadValidation.ts:168 | What is left is an order-preserving selection of the input, never longer. Text with no `<`, or no `>`, is left as it is. |
| LeadValidation.StripTagsRemovesTag | src/lib/leadValidation.ts:168 | A complete tag `<...>` after text with no `<` is removed with its brackets; the text before it is kept and the text after it is stripped in turn. |
| LeadValidation.StripTagsKeepsPrefix | src/lib/leadValidation.ts:168 | Text before the first `<` is kept as it is. |
| LeadValidation.Sanitize | src/lib/leadValidation.ts:166-171 | The result has none of ``< > " ' ` ;`` and no leading or trailing whitespace, and is an order-preserving selection of the input. Input with no dangerous character comes back only trimmed. |
| LeadValidation.SanitizeIdempotent | src/lib/leadValidation.ts:166-171 | Sanitising twice is sanitising once. |
| LeadValidation.CountFilledFields | src/lib/leadValidation.ts:174-182 | At most 5. It is 0 exactly when no tracked field is filled and 5 exactly when all are. |
| LeadValidation.ProgressPercentage | src/lib/leadValidation.ts:185-189 | Exactly 20 per filled field, so always one of 0, 20, 40, 60, 80, 100. |
| LeadValidation.ProgressMonotone | src/lib/leadValidation.ts:174-189 | Filling more of the tracked fields never lowers the percentage. |
| LeadValidation.ProgressBounds | src/lib/leadValidation.ts:174-189 | An empty form is at 0 and a form with all five fields filled is at 100. |
| LeadCapture.IsDuplicate | src/hooks/useLeadCapture.ts:72-88 | Fail-open: only a successful query that found a row counts as a duplicate. An error or a throw lets the lead through. |
| LeadCapture.BuildPayload | src/hooks/useLeadCapture.ts:91-102 | The name is the sanitised name and the email the sanitised, lower-cased email. The phone is the form's digits, in order. The birthday is the ISO conversion, present exactly for the `DD/MM/YYYY` shape. The preferences are the chosen ones joined by ", ", and null exactly when none are chosen. The promo code is null. |
| LeadCapture.PayloadEmailIsNormalised | src/hooks/useLeadCapture.ts:91-102 | The stored email has no dangerous character and is already lower-cased and sanitised: normalising it again changes nothing. |
| LeadCapture.ValidEmailIsStoredAsQueried | src/hooks/useLeadCapture.ts:71-102 | For an address the validator accepts, the row stores exactly the trimmed, lower-cased address the duplicate query filtered on. |
| LeadCapture.ValidNameIsStoredTrimmed | src/hooks/useLeadCapture.ts:91-102 | For a name the validator accepts, the row stores the name with only its surrounding whitespace removed. |
| LeadCapture.InsertWithRetry | src/hooks/useLeadCapture.ts:105-140 | At most 3 attempts. Every attempt but the last got a retryable answer (an error that is not a uniqueness violation, or a throw). The wait before attempt k+1 is 2000·k ms. The run stops early only on an insert or a uniqueness violation. "Exhausted" only after 3 attempts. |
| LeadCapture.RetryDelaysIncrease | src/hooks/useLeadCapture.ts:105-140 | There are at most two waits and they strictly increase. |
| LeadCapture.ExhaustedRun | src/hooks/useLeadCapture.ts:105-140 | Three retryable answers in a row give an exhausted run of 3 attempts with waits of 2000 ms and 4000 ms. |
| LeadCapture.ExhaustedOutcome | src/hooks/useLeadCapture.ts:105-140 | Three throws in a row exhaust the writer. |
| LeadCapture.SaveOffline | src/hooks/useLeadCapture.ts:143-152 | With writable storage the stored queue (an absent key read as empty) comes back unchanged as a prefix, followed by exactly one new entry, the payload. A failed write leaves storage as it was. |
| LeadCapture.FirstQueuedEntry | src/hooks/useLeadCapture.ts:143-152 | Saving into an absent queue creates a queue holding just the payload. |
| LeadCapture.SavedPayloadReplayedLast | src/hooks/useLeadCapture.ts:143-185 | A payload saved offline is replayed last, after the entries saved before it, and stays queued exactly when its own replayed insert fails again. |
| LeadCapture.SubmitLead | src/hooks/useLeadCapture.ts:188-294 | See the list below the table. |
| LeadCapture.ReportForRun | src/hooks/useLeadCapture.ts:241-292 | After the gates: the query plus exactly one insert per attempt, and the writer's waits. Stored exactly when the writer stored, rejected as a duplicate exactly when it hit a uniqueness violation, queued exactly for an exhaustion while offline, failed exactly for an exhaustion while online. The rate-limit time is written only for a stored lead. The queue changes only for an offline exhaustion, by one append. Success exactly for stored or queued. |
| LeadCapture.SubmitReachesWriter | src/hooks/useLeadCapture.ts:188-294 | Past the honeypot, the rate limit and the duplicate check, the submission's report is the writer's report. |
| LeadCapture.OfflineReport | src/hooks/useLeadCapture.ts:274-283 | An exhausted writer while offline gives success and appends the payload once behind the stored queue. |
| LeadCapture.FirstAttemptSuccess | src/hooks/useLeadCapture.ts:188-294 | A submission accepted at once makes exactly one query and one insert, with no wait, and succeeds. |
| LeadCapture.ThreeFailuresOnline | src/hooks/useLeadCapture.ts:188-294 | Any three retryable answers (throws, or errors other than a uniqueness violation) while online: four calls, waits of 2 s and 4 s, the error message, and state unchanged. |
| LeadCapture.SecondSubmissionRateLimited | src/hooks/useLeadCapture.ts:210-251 | After a stored lead, a second submission less than 60 s later is refused before any store call. |
| LeadCapture.KeepFailed | src/hooks/useLeadCapture.ts:164-179 | Keeps nothing when every replayed insert went through or hit code `23505`, and everything when none did; the general case is `KeepFailedStep`. |
| LeadCapture.KeepFailedIsSubsequence | src/hooks/useLeadCapture.ts:164-179 | What the replay keeps is an order-preserving selection of the queue. |
| LeadCapture.KeepFailedKeeps | src/hooks/useLeadCapture.ts:164-179 | Every entry whose own insert threw or failed with a code other than `23505` is kept. |
| LeadCapture.KeepFailedOnlyFailed | src/hooks/useLeadCapture.ts:164-179 | Every kept entry is one whose own insert threw or failed with a code other than `23505`. |
| LeadCapture.KeepFailedStep | src/hooks/useLeadCapture.ts:164-179 | Entry by entry: one more queued entry adds exactly that entry to what is kept when its own insert fails, and nothing otherwise. Repeated payloads are kept as often as they fail. |
| LeadCapture.ReplayOfflineQueue | src/hooks/useLeadCapture.ts:155-185 | An absent or empty queue makes no call. Otherwise there is one insert per entry, in queue order. The key is removed when nothing failed. Otherwise it is rewritten with the failures when storage is writable, and left alone when not. |
| LeadCapture.AcceptedReplayEmptiesQueue | src/hooks/useLeadCapture.ts:155-185 | Replaying a one-entry queue that the store accepts removes the key. |
| LeadCapture.OfflineThenReplay | src/hooks/useLeadCapture.ts:143-185 | A lead queued offline (three throws) appears exactly once in the queue, and a replay the store accepts empties it. |
| Analytics.TimePoints | src/lib/analytics.ts:188-189 | 2 points exactly above 120 s, none exactly at or below 60 s, 1 in between. |
| Analytics.ScrollPoints | src/lib/analytics.ts:191-192 | 2 points exactly from 75 %, none exactly below 50 %, 1 in between. |
| Analytics.Score | src/lib/analytics.ts:187-196 | The score is at most 7. It is 7 exactly when all five signals pass their top thresholds. |
| Analytics.ScoreCountsThresholds | src/lib/analytics.ts:187-196 | The score equals the count of passed thresholds (two for time, two for scroll, one each for the others), an independent reference definition. |
| Analytics.TierOf | src/lib/analytics.ts:198-200 | High exactly from 6, medium exactly from 3 to 5, low exactly up to 2. |
| Analytics.CalculateLeadScore | src/lib/analytics.ts:186-201 | The tier of the score. A low tier implies short time, shallow scroll or few clicks. |
| Analytics.ScoreMonotone | src/lib/analytics.ts:186-201 | Raising any of the five signals never lowers the score or the tier. |
| Analytics.ExampleHighIntent | src/lib/analytics.ts:186-201 | 150 s, 80 %, 3 clicks, 5 sections and 2 optional fields score 7, which is high. |
| Analytics.ExampleMediumIntent | src/lib/analytics.ts:186-201 | 90 s, 60 %, 2 clicks and nothing else score 3, which is medium. |
| LeadForm.GetLastField | src/app/components/LeadCaptureForm.tsx:628-635 | Looking from the bottom of the form, each label exactly in its case: "preferences" when any are chosen, else "birthday" when typed, else "phone" with 10+ digits, else "email", else "name". "" exactly when none of them is filled. |
| LeadForm.LastFieldIsLowestFilled | src/app/components/LeadCaptureForm.tsx:628-635 | The reported label names a filled field and every field below it on the form is empty; "" exactly when no field is filled. |
| LeadForm.NoLastFieldMeansNoProgress | src/app/components/LeadCaptureForm.tsx:628-635 | When no field is reported, the progress is 0. |
| LeadForm.BlankNameReportedButNotCounted | src/app/components/LeadCaptureForm.tsx:628-635 | A name of spaces is reported as the last field, while the progress counts it as empty. |
| LeadForm.EmitFrom | src/app/components/LeadCaptureForm.tsx:138-149 | A threshold is reported exactly when it is due: reached by the percentage and above the last one reported. Reports are in increasing order, and the last one reported becomes the new mark. |
| LeadForm.EmitMilestones | src/app/components/LeadCaptureForm.tsx:138-149 | The same for the milestones 33, 66, 100. The mark never goes down. |
| LeadForm.TrackProgress | src/app/components/LeadCaptureForm.tsx:138-149 | Over any number of edits, the reports are strictly increasing milestones above the starting mark, and the mark ends at the last one reported. |
| LeadForm.MilestonesAtMostOnce | src/app/components/LeadCaptureForm.tsx:138-149 | Between resets no milestone is reported twice, and at most three are reported. |
| LeadForm.FullFormReportsAll | src/app/components/LeadCaptureForm.tsx:138-149 | A full form reports 33, 66 and 100, in that order, from a fresh start. |
| LeadForm.AfterEdit | src/app/components/LeadCaptureForm.tsx:138-149 | The effect after an edit never lowers the mark and touches neither data nor errors. |
| LeadForm.TogglePreference | src/app/components/LeadCaptureForm.tsx:190-201 | The option is present afterwards exactly when it was absent, other options are unaffected, and an absent option is appended at the end. Removing a selected option drops every copy of it and keeps every copy of the others. |
| LeadForm.ToggleTwice | src/app/components/LeadCaptureForm.tsx:190-201 | Toggling an absent option twice restores the list. |
| LeadForm.ToggleOffKeepsOrder | src/app/components/LeadCaptureForm.tsx:190-201 | Toggling a present option off shortens the list and keeps the others in order. |
| LeadForm.SaveDraft | src/app/components/LeadCaptureForm.tsx:121-127 | The draft carries the five data fields. By its type it has no `terms` and no `website`. |
| LeadForm.RestoreDraft | src/app/components/LeadCaptureForm.tsx:110-118 | With no draft the form is kept. With a draft, each of name, email, phone, birthday and preferences takes the draft's value when present and keeps its own when absent; the terms are unticked and the honeypot is empty. |
| LeadForm.DraftRoundTrip | src/app/components/LeadCaptureForm.tsx:110-127 | Saving and then restoring gives back every field except the consent box and the honeypot. |
| LeadForm.DraftSaveAfterRestore | src/app/components/LeadCaptureForm.tsx:110-127 | A restored form saves to the draft it came from. |
| LeadForm.HandleChange | src/app/components/LeadCaptureForm.tsx:160-188 | Phone and birthday are stored as the typing mask of the value, keeping the first 11 or 8 digits; name, email and honeypot are stored verbatim; every other field is unchanged. Exactly the edited field's error is dropped, and the others are kept unchanged. |
| LeadForm.HandleTermsChange | src/app/components/LeadCaptureForm.tsx:203-213 | The box is ticked exactly for `true`. Ticking drops the terms error. Other changes keep the errors. |
| LeadForm.HandleBlur | src/app/components/LeadCaptureForm.tsx:216-235 | Blur never removes an error and never changes the form. Name, email and phone each get their validator's message under their own key when it reports one, and leave the errors as they were when it does not. Birthday and honeypot leave them unchanged. |
| LeadForm.ChangeThenBlur | src/app/components/LeadCaptureForm.tsx:160-235 | Editing name, email or phone and then leaving it shows that field's error exactly when its validator rejects the stored (masked) value, with that validator's message. |
| LeadForm.HandleSubmit | src/app/components/LeadCaptureForm.tsx:237-252 | The errors become the form's validation. The pipeline runs exactly when there is no error. The draft is dropped and the success panel shown exactly on success. |
| LeadForm.InvalidFormMakesNoCalls | src/app/components/LeadCaptureForm.tsx:237-245 | A form with unticked terms never reaches the store, and records the terms error. |
| LeadForm.HandleReset | src/app/components/LeadCaptureForm.tsx:254-260 | The data is back to the initial form, the panel is hidden and the mark is 0. The errors are kept. |
| LeadForm.ResetRearmsMilestones | src/app/components/LeadCaptureForm.tsx:254-260 | After a reset the 33 % milestone is reported afresh. |
| Store.AddToCart | src/lib/store.ts:55-71 | A dish already in the cart gets the quantity added and its note replaced, and nothing else changes. A new dish is appended once at the end. |
| Store.AddToCartKeepsUnique | src/lib/store.ts:55-71 | Adding never creates a second line for an id. |
| Store.AddToCartQuantity | src/lib/store.ts:55-71 | With unique ids, the quantity held under the dish's id grows by exactly the amount added. |
| Store.AddToCartOtherQuantity | src/lib/store.ts:55-71 | The quantity under every other id is unchanged. |
| Store.UpdateCartItem | src/lib/store.ts:73-84 | A quantity of 0 or less is removing the line. Otherwise exactly the matching lines take the new quantity and note. |
| Store.UpdateCartItemQuantity | src/lib/store.ts:73-84 | After a positive update, the quantity held under the id is the new quantity. |
| Store.UpdateToZeroIsRemove | src/lib/store.ts:73-77 | Dispatching an update to 0 or less is dispatching a removal. |
| Store.RemoveFromCart | src/lib/store.ts:86-90 | No line has the id afterwards. Every copy of every other line survives, and the id's quantity is 0. |
| Store.DeleteById | src/lib/store.ts:86-90 | Keeps every copy of each entry with another id and none with the id. Deleting an absent id changes nothing. |
| Store.DeleteByIdStep | src/lib/store.ts:86-90 | Entry by entry: an appended entry survives exactly when its id differs, behind the survivors of the rest. |
| Store.DeleteKeepsOrder | src/lib/store.ts:86-90 | Deleting keeps the survivors in order. |
| Store.DeleteKeepsUnique | src/lib/store.ts:120-123 | Deleting preserves id uniqueness. |
| Store.Append | src/lib/store.ts:112-113 | One more entry, the new one last, and the old ones first. |
| Store.AppendKeepsUnique | src/lib/store.ts:112-113 | Appending an entry with a fresh id preserves uniqueness. |
| Store.DeleteUndoesAppend | src/lib/store.ts:112-123 | Deleting an entry just appended with a fresh id restores the collection. |
| Store.AddThenDeleteMenuItem | src/lib/store.ts:112-123 | Adding a dish with a fresh id and then deleting that id restores the whole state. |
| Store.UpdateById | src/lib/store.ts:114-119 | The same length. The change applies to exactly the entries with the id, and every other entry is unchanged. |
| Store.ApplyMenuPatch | src/lib/store.ts:114-119 | Each field takes the patch's value when the patch has the key and keeps the dish's own otherwise; so an empty patch changes nothing. |
| Store.ApplyMenuPatchIdempotent | src/lib/store.ts:114-119 | Merging the same changes twice is merging them once. |
| Store.UpdateMenuItem | src/lib/store.ts:114-119 | Each dish with the id gets the patch merged in, and the others are unchanged. |
| Store.UpdateMenuItemIdempotent | src/lib/store.ts:114-119 | The same update twice leaves what one update left. |
| Store.EmptyMenuUpdate | src/lib/store.ts:114-119 | An update with no keys changes nothing. |
| Store.ApplyTestimonialPatch | src/lib/store.ts:134-139 | Each field takes the patch's value when the patch has the key and keeps the testimonial's own otherwise. |
| Store.ApplyTestimonialPatchIdempotent | src/lib/store.ts:134-139 | Merging the same changes twice is merging them once. |
| Store.UpdateTestimonial | src/lib/store.ts:134-139 | Each testimonial with the id gets the patch merged in, and the others are unchanged. |
| Store.ApproveTestimonial | src/lib/store.ts:134-139 | Approving flips only the `approved` flag of the matching testimonials. |
| Store.ApplyBannerPatch | src/lib/store.ts:149-154 | Each field takes the patch's value when the patch has the key and keeps the banner's own otherwise. |
| Store.ApplyBannerPatchIdempotent | src/lib/store.ts:149-154 | Merging the same changes twice is merging them once. |
| Store.UpdatePromoBanner | src/lib/store.ts:149-154 | Each banner with the id gets the patch merged in, and the others are unchanged. |
| Store.AdminLoginOp | src/lib/store.ts:100-106 | Returns true and signs in exactly for the fixed password. Otherwise nothing changes. |
| Store.Dispatch | src/lib/store.ts:53-158 | See the list below the table. |
| Store.ToggleTwice | src/lib/store.ts:96 | Toggling the theme twice restores the state. |
| Utils.IsRestaurantOpen | src/lib/utils.ts:92-116 | Open exactly when the minute falls in one of the day's windows in the weekly schedule table. Open only on days 0-6 between 11:00 and 23:00. |
| Utils.OpeningBoundaries | src/lib/utils.ts:97-115 | Opening minutes are inside and closing minutes outside, on weekdays, Saturday and Sunday. |
| Utils.IsValidEmail | src/lib/utils.ts:128-131 | True exactly when the text splits as non-empty `@` non-empty `.` non-empty with no whitespace and no other `@` (the regular expression's meaning). |
| Utils.StrictPatternPassesLooseCheck | src/lib/utils.ts:128-131 | Every address the lead form's strict pattern accepts passes the loose check. |
| Utils.LooseCheckIsLooser | src/lib/utils.ts:128-131 | "a@b.c" passes the loose check but not the strict one. |
| Utils.FormatPhone | src/lib/utils.ts:136-146 | 10 or 11 digits keep their digits, gain four characters, and begin `(DD) ` with a `-` before the last four. Any other count returns the input unchanged. |
| Utils.FormatPhoneIdempotent | src/lib/utils.ts:136-146 | Formatting a formatted phone changes nothing. |
| Utils.ElevenDigitsFormatsAgree | src/lib/utils.ts:136-146 | For 11 digits the display format equals the lead form's typing mask. |
| Utils.TenDigitsFormatsDiffer | src/lib/utils.ts:136-146 | For 10 digits the display format splits 4-4, which differs from the typing mask's 5-3. |
| Utils.GetCategoryIcon | src/lib/utils.ts:151-160 | Each of the four known categories gets its own icon (stew, dumpling, cup, cake); the plate icon exactly for any other name. |
| Utils.KnownCategoryIconsDistinct | src/lib/utils.ts:151-160 | The four known categories get four different icons, none of them the plate. |
| MenuPdf.CategoryKey | src/lib/cardapioPDF.ts:104 | Never empty: a dish's category, or "Outros" when it has none. |
| MenuPdf.ConfigForAsWritten | src/lib/cardapioPDF.ts:112 | The lookup as written. A name falls back to order 99 exactly when it is not a key of the table, and a fallback heading is the upper-cased name. |
| MenuPdf.AccentedPorcoesFallsBack | src/lib/cardapioPDF.ts:37-43 | As written, the editor's "Porções" misses the key "Porcoes": its heading is "PORÇÕES" and it sorts after the drinks. |
| MenuPdf.ConfigFor | src/lib/cardapioPDF.ts:37-43 | The corrected lookup of the finding below, not used by the grouping. It agrees with the table on the table's keys and also reads the accented "Porções" as configured. Any other name falls back to order 99 under its upper-cased name. |
| MenuPdf.EditorCategoriesConfigured | src/app/components/admin/MenuManager.tsx:27-33 | Every category the menu editor offers gets its own configured order, and "Porções" is third under "PORCOES". |
| MenuPdf.ConfiguredOrdersDistinct | src/lib/cardapioPDF.ts:37-43 | Distinct table keys have distinct orders. |
| MenuPdf.UnsortedGroups | src/lib/cardapioPDF.ts:100-113 | One group per distinct category of an available dish, in order of first appearance, each built with the lookup as written. |
| MenuPdf.MakeGroup | src/lib/cardapioPDF.ts:110-113 | A group carries its name and exactly the given dishes of its category. Its order is 99 exactly when the name is not a key of the table, and then its heading is the upper-cased name. |
| MenuPdf.GroupByCategory | src/lib/cardapioPDF.ts:100-116 | The groups come out in non-decreasing order, as the table as written assigns it. |
| MenuPdf.GroupByCategoryPermutes | src/lib/cardapioPDF.ts:114-115 | Sorting neither loses nor invents a group. |
| MenuPdf.GroupSortStable | src/lib/cardapioPDF.ts:114-115 | Groups sharing an order keep their first-appearance order. |
| MenuPdf.GroupContents | src/lib/cardapioPDF.ts:100-116 | Every group is non-empty. It holds exactly the available dishes of its category, in menu order, under the heading and order of the lookup as written. |
| MenuPdf.PorcoesPrintedAfterDrinks | src/lib/cardapioPDF.ts:110-116 | A group of the editor's "Porções" is headed "PORÇÕES", has order 99 and is printed after the "Bebidas" group. |
| MenuPdf.GroupNamesDistinct | src/lib/cardapioPDF.ts:100-108 | No two groups share a category. |
| MenuPdf.EveryAvailableItemPlaced | src/lib/cardapioPDF.ts:100-108 | Every available dish is in its category's group, and an unavailable dish is in none. |
| MenuPdf.NoGroupsIffNothingAvailable | src/lib/cardapioPDF.ts:100-116 | There are no groups exactly when no dish is available. |
| MenuPdf.PrepareDocument | src/lib/cardapioPDF.ts:620-628 | Fails with the "no item" message exactly when no dish is available. Otherwise the plan holds the groups as `agruparPorCategoria` builds them, and prices and descriptions default to shown (lines 251-252). |
| MenuPdf.BadgeLabel | src/lib/cardapioPDF.ts:388-393 | "bestseller" reads "Mais Pedido", "new" reads "Novidade", "spicy" reads "Picante"; unknown badges are shown as written. |
| MenuPdf.BadgeLine | src/lib/cardapioPDF.ts:386-397 | There is a badge line exactly when the dish has at least one badge. A single badge shows its label alone. |
| MenuPdf.BadgeLineJoins | src/lib/cardapioPDF.ts:386-397 | With more than one badge, the line is the first label, the separator (two spaces, a vertical bar, two spaces), then the line of the remaining badges. |
| MenuPdf.TwoBadgeLine | src/lib/cardapioPDF.ts:386-397 | "bestseller" and "spicy" give "Mais Pedido", the separator, then "Picante". |
| MenuPdf.ItemBlockFor | src/lib/cardapioPDF.ts:353-384 | The price column follows the price option. A description is shown exactly when the option is on and the dish has non-empty text. |
| MenuPdf.FullDateParsesBack | src/lib/cardapioPDF.ts:73-78 | The long date reads back: the digits before the first space are the day, followed by " de ", the month's name, " de " and the year's digits. |
| MenuPdf.WeekDayName | src/lib/cardapioPDF.ts:80-82 | Each day index 0..6 gets its name, from "Domingo" to "Sabado", each exactly for its index. |
| MenuPdf.WeekDayNamesDistinct | src/lib/cardapioPDF.ts:63-82 | Two dates get the same week-day name exactly when they fall on the same day of the week. |
| MenuPdf.FileDate | src/lib/cardapioPDF.ts:84-89 | Dashes 3 and 6 characters from the end. |
| MenuPdf.FileDateParsesBack | src/lib/cardapioPDF.ts:84-89 | The file date reads back as the year, the 1-based month and the day, both zero-padded to two digits. |
| MenuPdf.PdfFileName | src/lib/cardapioPDF.ts:651-652 | The fixed prefix, then the file date `FileDate(d)`, then `.pdf`; FileDateParsesBack reads the date part back. |
| ImageStorage.ValidateImageFile | src/lib/storage.ts:66-74 | Accepted exactly for the four image types up to 5 MiB. The type error takes precedence. The size error fires exactly for an allowed type above 5 MiB. |
| ImageStorage.TypeMessage | src/lib/storage.ts:67-69 | The type message is the fixed Portuguese prefix, the rejected type itself, then the list of accepted formats. |
| ImageStorage.GetPublicUrl | src/lib/storage.ts:30-37 | "" stays "". `http://` and `https://` paths are returned unchanged. Storage paths go to the service's URL builder. |
| ImageStorage.PublicUrlIdempotent | src/lib/storage.ts:30-37 | When the service returns absolute URLs, resolving twice is resolving once. |
| ImageStorage.TransformFor | src/lib/storage.ts:52-57 | Each given option is used as given; an absent width, height, quality or resize mode becomes 800, 600, 80 or cover respectively. |
| ImageStorage.TransformForExplicit | src/lib/storage.ts:52-57 | Spelling out every option of a transformation gives back that transformation. |
| ImageStorage.GetTransformedUrl | src/lib/storage.ts:43-60 | The same passthrough guards, with the transformation for storage paths. |
| ImageStorage.FileExtension | src/lib/storage.ts:92 | With no dot, the whole name lower-cased. |
| ImageStorage.FileExtensionOfName | src/lib/storage.ts:92 | A name ending in `.ext`, with no dot in `ext`, has the extension `ext` lower-cased. |
| ImageStorage.UniqueName | src/lib/storage.ts:93 | The time stamp, `_`, the random token, `.` and the extension, in that order. |
| ImageStorage.UploadPath | src/lib/storage.ts:94 | Inside the folder, after a `/`, when a folder is given; otherwise the bare name. |
| ImageStorage.UploadImage | src/lib/storage.ts:82-107 | An invalid file is rejected before any upload request. A valid one is uploaded under the built path. It succeeds exactly when the service stores it, returning the stored path and its public URL, and a service error is surfaced. |
| ImageStorage.DeleteImage | src/lib/storage.ts:112-120 | A removal is requested exactly for storage paths, and an error is surfaced exactly when that removal fails. |
| ImageStorage.DeleteMatchesResolution | src/lib/storage.ts:112-120 | A removal is requested exactly for the paths whose URL the storage service builds. |
| ImageStorage.ReplaceImage | src/lib/storage.ts:125-136 | The removal of exactly the old path is attempted exactly when it is a storage path, its failure is ignored, and the result is the upload's. |
| ImageStorage.ReplaceDeletesBeforeValidating | src/lib/storage.ts:125-136 | A rejected file still costs the old image: the removal is requested and the upload is refused. |
| ClienteEspecial.Validate | src/app/components/ClienteEspecialForm.tsx:46-67 | Name error exactly for a blank name. Email error exactly when the loose check fails, saying "required" when blank. Phone error exactly when blank or shorter than 10, saying "required" when blank. Never a birthday error. |
| ClienteEspecial.BlankEmailInvalid | src/app/components/ClienteEspecialForm.tsx:53-57 | A blank address never passes the shape check. |
| ClienteEspecial.ValidIff | src/app/components/ClienteEspecialForm.tsx:46-67 | No errors exactly for a non-blank name, a well-shaped address and a phone of 10 or more characters. |
| ClienteEspecial.LongPhoneAccepted | src/app/components/ClienteEspecialForm.tsx:59-63 | Any number of digits from ten on passes: there is no upper bound. |
| ClienteEspecial.HandleChange | src/app/components/ClienteEspecialForm.tsx:29-44 | The phone keeps only its digits and other fields are stored as typed. The edited field keeps an error key exactly when it had one, and that error is blanked; no error is added. Other errors are untouched. |
| ClienteEspecial.StoredPhoneCounts | src/app/components/ClienteEspecialForm.tsx:29-38 | A stored phone is blank only when empty, and its length is its digit count. |
| ClienteEspecial.NewCustomer | src/app/components/ClienteEspecialForm.tsx:74-83 | Promo code FLOR10. There is a birthday exactly when one was typed. The fields are copied from the form. |
| ClienteEspecial.HandleSubmit | src/app/components/ClienteEspecialForm.tsx:69-92 | The errors are recorded. A customer is registered, and the success shown, exactly when there are none. Otherwise only the errors change. |
| ClienteEspecial.RegisteredCustomerIsValid | src/app/components/ClienteEspecialForm.tsx:69-85 | A registered customer has a name, a well-shaped address and a phone of 10 or more characters. |
| ClienteEspecial.AfterSuccessDelay | src/app/components/ClienteEspecialForm.tsx:94-99 | The delayed reset hides the message, closes the dialog and clears the form. |
| ClienteEspecial.MaskPhone | src/app/components/ClienteEspecialForm.tsx:352-360 | The mask shows exactly the first 11 digits. Up to two digits are shown bare, and seven end with `-`. |
| ClienteEspecial.MaskAgreesWithLeadForm | src/app/components/ClienteEspecialForm.tsx:352-360 | The same as the lead form's mask except at seven digits, where a dangling `-` is added. |
| ClienteEspecial.MaskPhoneIdempotent | src/app/components/ClienteEspecialForm.tsx:352-360 | Masking the masked text changes nothing. |
| MenuSection.Categories | src/app/components/MenuSection.tsx:40-43 | "Todos" first, then each category of the menu exactly once, ordered by where its first dish appears on the menu. |
| MenuSection.FilteredItems | src/app/components/MenuSection.tsx:46-49 | "Todos" shows everything. Any other chip shows every copy of each dish of that category and nothing else. |
| MenuSection.FilteredKeepsOrder | src/app/components/MenuSection.tsx:46-49 | The filtered list keeps the menu order. |
| MenuSection.ChipsAreNonEmpty | src/app/components/MenuSection.tsx:40-49 | Every chip after "Todos" shows at least one dish. |
| MenuSection.ShownQuantity | src/app/components/MenuSection.tsx:53 | A missing or zero entry reads as 1, and a non-zero entry reads as itself. |
| MenuSection.Clamp | src/app/components/MenuSection.tsx:54 | Always within 1..10: the identity inside the range, and saturating outside it. |
| MenuSection.QuantityChange | src/app/components/MenuSection.tsx:51-57 | The dish's quantity steps and stays within 1..10, and no other dish changes. |
| MenuSection.StepDownUndoesStepUp | src/app/components/MenuSection.tsx:51-57 | Below the top, a step down undoes a step up. |
| MenuSection.StepUpSaturates | src/app/components/MenuSection.tsx:51-57 | At 10 a step up changes nothing. |
| MenuSection.AddFromMenu | src/app/components/MenuSection.tsx:59-76 | The cart gets the shown quantity and the note. The dish's quantity resets to 1 and its note to "". |
| MenuSection.AddFromMenuAddsShownQuantity | src/app/components/MenuSection.tsx:59-76 | The cart gains exactly the shown quantity of the dish. Other dishes keep theirs, and the stepper shows 1 again. |
| Carousel.ApprovedTestimonials | src/app/components/TestimonialsSection.tsx:20-24 | Every copy of each approved testimonial and nothing else. Nothing at all exactly when none is approved. |
| Carousel.Next | src/app/components/TestimonialsSection.tsx:26-29 | Stays within the count: one forward, wrapping to the first. |
| Carousel.Prev | src/app/components/TestimonialsSection.tsx:31-36 | Stays within the count: one back, wrapping to the last. |
| Carousel.NextPrevInverse | src/app/components/TestimonialsSection.tsx:26-36 | Within range, back undoes forward and forward undoes back. |
| Carousel.FullCycle | src/app/components/TestimonialsSection.tsx:26-29 | Stepping forward once per slide returns to the start. |
| Carousel.HandleNext | src/app/components/TestimonialsSection.tsx:26-29 | Direction +1 and the next index. |
| Carousel.HandlePrev | src/app/components/TestimonialsSection.tsx:31-36 | Direction -1 and the previous index. |
| Carousel.DotClick | src/app/components/TestimonialsSection.tsx:213-216 | Jumps to the slide. The direction is +1 exactly for a later slide and -1 otherwise. |
| Carousel.CurrentDotPointsBack | src/app/components/TestimonialsSection.tsx:213-216 | Clicking the current dot keeps the slide but sets direction -1. |
| Carousel.ActiveBanners | src/app/components/PromoBanners.tsx:14-26 | Every copy of each active banner and nothing else. Nothing at all exactly when none is active. |
| Carousel.BannerNext | src/app/components/PromoBanners.tsx:28-30 | The same step as the testimonials' arrow. |
| Carousel.BannerPrev | src/app/components/PromoBanners.tsx:32-36 | The last banner from the first, else one back. Within range only when the index was. |
| Carousel.BannerPrevAgrees | src/app/components/PromoBanners.tsx:32-36 | Within range, the banner's back step is the testimonials' one. |
| Carousel.BannerStepsInverse | src/app/components/PromoBanners.tsx:28-36 | Within range, the banner steps are mutual inverses. |
| Carousel.StaleBannerIndex | src/app/components/PromoBanners.tsx:32-36 | Unlike the modular step, a back step from an index left past the end stays out of range. |
| Carousel.AutoAdvanceInstalled | src/app/components/PromoBanners.tsx:16-24 | The timer is installed exactly when more than one banner is active. |
| Carousel.TimerTicks | src/app/components/PromoBanners.tsx:16-24 | After k ticks from the first banner, the index shown is k wrapped around the count. |

What `LeadCapture.SubmitLead` guarantees, gate by gate:
- A honeypot value gives simulated success. Nothing is called and nothing is written.
- A stored time less than 60 s old fails before any store call.
- At most one query and then three identical inserts are made.
- The waits are 2000·k ms.
- A duplicate row stops before any insert.
- Only a stored lead writes the time.
- Only an offline exhaustion appends to the queue, and it appends once.
- An online exhaustion fails with the state unchanged.
- The result is success exactly for the honeypot, stored and queued outcomes.
- Past the gates, the writer's run decides the rest. The calls are the query plus one insert per attempt, and the waits are the writer's. The lead is stored exactly when the writer stored it. It is rejected as a duplicate exactly when an insert hit a uniqueness violation. It is queued exactly for an exhaustion while offline, and fails exactly for an exhaustion while online.

What `Store.Dispatch` guarantees:
- Each action changes only its own slice of the state.
- The theme flag is negated.
- Logout signs out.
- Login returns true exactly for the fixed password.
- Clearing empties the cart.
- Adds append.
- Removal is `RemoveFromCart`.
- Adding to the cart is `AddToCart`, and updating a line is `UpdateCartItem`.
- Each update and delete action is the matching `Update*` or `DeleteById` on its own collection.
- A successful login sets only the signed-in flag.

## Left out

- Supabase is not modelled as a service. Its answers are parameters: the duplicate query's answer, a script of insert answers, the upload and remove answers, and the storage URL builder.
- `localStorage` and `sessionStorage` are not modelled as a key-value store. The persisted lead state is a value: the last submit time and the offline queue. Whether a write succeeds is a flag.
- JSON parsing is not modelled:
  - a corrupt or unparseable draft or queue is not modelled;
  - an unparseable stored time is modelled as absent, because NaN comparisons let the submission through.
- The clock is not modelled. It becomes parameters: `now`, the time the stamp is written, today's date, and the day and minute for the opening hours. `setTimeout` waits are recorded as delay values instead of elapsing.
- Randomness is not modelled. The random base-36 token of the upload name is a parameter. `generateId` is left out; ids are parameters.
- Concurrency is not modelled: two submissions in flight, and a replay racing with a new offline save. No claim is made that these are safe.
- React effects and timers are not modelled. Each handler is a step function on an explicit state, and the milestone effect runs once per edit.
- The PDF rendering is left out: pdfmake, the canvas placeholder, the base64 image loading and the layout tree.
- Analytics emission is left out: `gtag`, the `track*` wrappers and page tracking.
- Prices and megabyte figures rendered with `toFixed` are left out, because they are floating-point text formatting. Times and percentages in the score are reals and are compared, never computed.
- Unicode case mapping is modelled only for ASCII and Latin-1. Characters outside Latin-1 are left as they are. Two Latin-1 characters upper-case differently in JavaScript: `ß` becomes "SS" and `µ` becomes `Μ` (U+039C). `Text.UpperChar` leaves both unchanged, so a fallback menu heading containing them differs from the printed one.
- JavaScript object-literal lookups can hit prototype keys such as "constructor". These are not modelled: category, icon and badge lookups see only their own keys.
- Store patches are modelled as a field-by-field `Option`. An explicit `undefined` in a patch cannot be expressed.
- A cart line spreads the whole menu item in the source. Here it is modelled as the item together with the quantity and the note.
- The other helpers in `src/lib/utils.ts` are out of scope: `formatCurrency`, the WhatsApp links, geolocation and `trackEvent`. The same goes for the scroll and hash effects of the lead form.
- The lead form component is modelled as written, although the home page mounts the "cliente especial" dialog instead (`src/app/App.tsx:106`).
- ImageStorage.FileExtension: its contract covers only names without a dot. The dotted case is stated by `ImageStorage.FileExtensionOfName`. The `'jpg'` fallback cannot be reached, because splitting never yields an empty array.
- LeadCapture.KeepFailed: its own contract covers only the all-kept and none-kept cases. The general case is stated by `LeadCapture.KeepFailedStep`, entry by entry, with multiplicities.
- MenuPdf.FileDate: its own contract gives only the dash positions. The read-back is `MenuPdf.FileDateParsesBack`.
- MenuPdf.ConfigFor: the grouping follows the lookup as written; the corrected lookup of the Findings row is stated on its own and no corrected grouping is built from it.

## Findings

| source | as written | input that shows it | evidently intended | confidence | as-written member | corrected member |
|---|---|---|---|---|---|---|
| src/lib/cardapioPDF.ts:37-43 | The category table's portion key is the unaccented "Porcoes", while the menu editor (`src/app/components/admin/MenuManager.tsx:27-33`) offers "Porções". | A dish with category "Porções" | Portions print third under "PORCOES", as the table says. As written they are headed "PORÇÕES" and sorted after the drinks with the unknown order 99. | not executed | MenuPdf.AccentedPorcoesFallsBack | MenuPdf.EditorCategoriesConfigured |
