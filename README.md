# Clinic records: a verified model

This project is a Dafny model of a small dermatology clinic's records system,
a Flask application backed by SQLite. The model covers:

- **Two tables.** Patients, unique by phone, and their visits. Each visit
  carries the clinical fields, a next-appointment date, a status and a
  reminder flag.
- **The registration page.** Select a patient by id, or search by a name
  fragment. The search has three outcomes: no match, one match loaded
  directly, or several shown as candidates.
- **The checkup form.** An upsert of the patient by exact phone, then a new
  visit dated today with status "Pending".
- **The appointment list.**
  - Today's appointments by default.
  - A date filter and a procedure filter.
  - The "show all" view: one row per patient, their newest visit, with the
    medicine box replaced by the patient's whole dated medicine history; the
    rows sorted newest visit date first.
  - The prompt offering a welcome message to a patient just registered.
- **Deleting a visit, and setting a visit's status** to any text.
- **The two messages sent through an external messaging channel**, both to a
  normalised phone number:
  - the welcome message, sent at most once per patient;
  - the reminder sweep over the visits due tomorrow, which skips visits
    already reminded, continues past failures, counts deliveries and writes
    a log.

Modules, one per file:

- `Wrappers`: `Option`.
- `Strings`: Python's `isspace`, `strip` and `<` on text, ASCII lower-casing
  and substring search.
- `Phone`: the dialling-number rule.
- `Records`: the rows, the table invariants, and the lookups the routes run.
- `Registration`: name search and the registration page.
- `Appointments`: the filters and the welcome prompt.
- `Aggregation`: the "show all" rows, the combined medicine history and the
  stable sort by date.
- `Updates`: the writes of the checkup form, the delete and the status
  change, as functions on the tables.
- `Reminders`: the messages, the sweep, and the welcome.
- `Clinic`: the class `Store`, holding the two tables as fields.
  - Each state-changing route is a method that updates them in place. It is
    proved against the functions above, and it keeps `Valid()`: ids ascend,
    phones are unique, and every visit has its patient.
  - The appointment list is a method that reads the tables and changes
    nothing.

The model's inputs:

- A table is a sequence of rows in ascending id order.
- A new row's id is the current largest id plus one, as SQLite assigns
  rowids.
- The current date ("today", "tomorrow") is a parameter.
- The messaging channel is an oracle:
  - the welcome takes the channel's answer `reply`;
  - the sweep takes `channel`, where `channel(k)` is the answer to the k-th
    send attempt.

Where the code and its documentation differ, the model follows the code:

- **Prefixed ten-character numbers.** The length test comes before the `'+'`
  test, so a ten-character number that already starts with `'+'` still gets
  "+91" (`Phone.PrefixedTenCharacterNumber`). The rule is not idempotent
  (`Phone.NotIdempotent`).
- **"No new messages" after failures.** The sweep logs "no new messages"
  whenever nothing was delivered. That includes the case where every send
  failed, not only the case where every visit was already reminded.
- **Selection beside an ambiguous search.** The registration page loads a
  `select_id` patient first. A search then replaces that patient only when
  it finds exactly one match. An ambiguous search lists its candidates
  beside the selected patient instead of clearing it.
- **"Show all" changes nothing.** The overwritten medicine box of "show all"
  is never committed, so the view leaves the store unchanged; its rows are
  copies.

## Model

| member | source | states |
|---|---|---|
| Strings.LeadingBlanks | app.py:73 | counts the white space at the start: every counted character is white space and the next one is not |
| Strings.TrailingBlanks | app.py:73 | counts the white space at the end: every counted character is white space and the one before is not |
| Strings.Strip | app.py:73 | the stripped text has no white space at either end, and is empty exactly when the input is blank |
| Strings.StripIsSlice | app.py:73 | strip removes only white space, and only from the two ends: the result is a slice of the input between two blank parts |
| Strings.StripUntrimmed | app.py:234 | text with no white space at either end is its own strip |
| Strings.LowerHasNoUpper | app.py:77 | no ASCII capital letter is left in a lower-cased text |
| Strings.LowerIdempotent | app.py:77 | lower-casing a lower-cased text changes nothing |
| Strings.ContainsIgnoringCaseIgnoresCase | app.py:77 | the case-insensitive test gives the same answer when the text or the fragment is lower-cased first, or replaced by any text with the same lower-case form |
| Strings.ContainsIff | app.py:77 | the substring scan succeeds exactly when the fragment occurs at some position |
| Phone.Normalize | app.py:234-236 | the dialled number always starts with '+', ends with the stripped number, and adds at most three characters |
| Phone.TenCharacterNumber | app.py:235 | a stripped number of ten characters is dialled as "+91" followed by it, whatever its first character |
| Phone.PrefixedNumberKept | app.py:236 | a number of any other length that starts with '+' is dialled as stripped |
| Phone.BareNumberGetsPlus | app.py:236 | any other number gets "+" in front |
| Phone.PrefixedTenCharacterNumber | app.py:235 | a ten-character number that already starts with '+' still gets "+91" |
| Phone.NotIdempotent | app.py:291-293 | normalising twice differs from normalising once, for every nine-character number not starting with '+' |
| Records.NextPatientId | app.py:19 | a new patient id is positive and larger than every existing id |
| Records.NextVisitId | app.py:33 | a new visit id is positive and larger than every existing id |
| Records.FindPhone | app.py:115 | the first patient with exactly that phone, or none exactly when no patient has it |
| Records.FindPatient | app.py:66 | the patient with that id, or none exactly when there is no such patient |
| Records.FindVisit | app.py:254 | the visit with that id, or none exactly when there is no such visit |
| Records.History | app.py:69 | a patient's visit list holds exactly that patient's visits |
| Records.HistoryNewestFirst | app.py:69 | the visit list is in strictly descending id order |
| Records.HistoryHeadIsLatest | app.py:182-186 | the first visit of the list is the patient's visit with the highest id |
| Records.Scheduled | app.py:281 | the visits due on a date are exactly the visits whose next appointment is that date |
| Records.ScheduledAscending | app.py:281 | the visits due keep the table's ascending id order |
| Registration.Matching | app.py:77 | the matches are exactly the patients whose name contains the fragment, ignoring ASCII case |
| Registration.Classify | app.py:79-87 | no results give no match, one result is loaded directly, two or more are all listed as candidates |
| Registration.Search | app.py:72-87 | a blank fragment runs no search; no match exactly when no name matches the stripped fragment; a unique result is the only matching patient; an ambiguous one lists exactly the matching patients |
| Registration.Found | app.py:75-87 | the same three outcomes for a non-empty fragment |
| Registration.TwoRowsTwoMatches | app.py:83 | two matching rows give at least two results |
| Registration.MatchingAscending | app.py:76 | the matches of a table in ascending id order are in ascending id order too |
| Registration.TwoMatchesTwoRows | app.py:83 | at least two results come from two distinct matching rows |
| Registration.TwoMatchesIff | app.py:83-85 | two or more results exactly when two distinct rows match |
| Registration.AmbiguousIff | app.py:73-85 | a search is ambiguous exactly when the fragment is not blank and two distinct patients match it |
| Registration.Load | app.py:64-69 | selecting an id loads that patient and its visit list, or nothing when there is no such patient; no candidates |
| Registration.Page | app.py:57-89 | the page's patient, visit list and candidates: a unique search result replaces the selection and clears the candidates; candidates appear exactly for an ambiguous search; otherwise the selection stands |
| Appointments.WithProcedure | app.py:215-216 | the rows kept are exactly those whose procedure contains the text, ignoring ASCII case |
| Appointments.Filter | app.py:206-217 | the date shown is the requested date, or today when none was given; the rows are exactly the visits due that date whose procedure matches when a procedure was given |
| Appointments.WithProcedureAscending | app.py:215-216 | the procedure filter keeps ascending id order |
| Appointments.FilterAscending | app.py:206-222 | a filtered listing and today's listing of an ascending table are in ascending id order |
| Appointments.Today | app.py:218-222 | a plain visit lists exactly the visits due today and shows today's date |
| Appointments.WelcomePrompt | app.py:163-168 | the prompt names the patient with the new id when that patient exists and was not yet welcomed, and nothing otherwise |
| Aggregation.Entry | app.py:193 | an entry is never empty |
| Aggregation.EntriesAppend | app.py:189-194 | walking the visits in two pieces gives the first piece's entries then the second's |
| Aggregation.EntriesSingle | app.py:191-194 | a visit contributes its dated entry exactly when its medicine box is present and not blank |
| Aggregation.EntriesEmptyIff | app.py:190-194 | there are no entries exactly when no visit carries medicine |
| Aggregation.JoinEmptyIff | app.py:198 | joining non-empty parts gives the empty string exactly for no parts |
| Aggregation.EntriesNonEmpty | app.py:193 | every entry is non-empty |
| Aggregation.DigestEmptyIff | app.py:189-198 | the combined history is empty exactly when no visit carries non-blank medicine |
| Aggregation.DigestOfTwo | app.py:198 | two visits with medicine give the newer entry, the separator, then the older entry |
| Aggregation.RowsComeFromPatients | app.py:180-201 | every row is the newest visit of some patient with visits, carrying that patient's combined history |
| Aggregation.EveryPatientWithVisitsHasRow | app.py:184-201 | every patient with at least one visit has its row |
| Aggregation.RowsHavePatients | app.py:180-201 | every row belongs to a patient in the table |
| Aggregation.RowsBeforeLast | app.py:180 | the rows of earlier patients belong to patients with smaller ids than the last |
| Aggregation.OneRowPerPatient | app.py:180-201 | the rows' patient ids ascend strictly, so there is at most one row per patient, and each row's patient exists |
| Aggregation.LatestRowIsNewest | app.py:182-198 | a patient's row is that patient's highest-id visit with its medicine box replaced by the combined history |
| Aggregation.Insert | app.py:204 | inserting adds exactly the one row, and keeps sorted rows sorted by date, newest first |
| Aggregation.InsertFrontSorted | app.py:204 | a row no older than the first of sorted rows can go in front |
| Aggregation.InsertAfterSorted | app.py:204 | the first of sorted rows stays in front when an older row is inserted behind it |
| Aggregation.SortByDate | app.py:204 | the sorted rows are a permutation of the rows, newest visit date first |
| Aggregation.InsertOnDate | app.py:204 | an inserted row goes in front of the rows that share its date |
| Aggregation.SortKeepsOrderOfTies | app.py:204 | the sort is stable: rows with the same date keep their order |
| Updates.NewPatient | app.py:126 | a new patient gets the next id, the submitted name, phone, age, gender, address and family history, and an unset welcome flag |
| Updates.Refreshed | app.py:119-122 | a returning patient takes name, age, address and family history from the form, and keeps id, phone, gender and the welcome flag |
| Updates.Admit | app.py:115-130 | a patient is created exactly when no patient has the phone; otherwise the first patient with that phone is refreshed in place and the visit goes under its id |
| Updates.OpenVisit | app.py:133-146 | the new visit has the next id, the resolved patient, today's date, status "Pending", no reminder sent, and the submitted next date, diagnosis, procedure, complaint, investigation, medicine, advice and next plan |
| Updates.Checkup | app.py:133-148 | exactly one visit is appended and no existing visit changes |
| Updates.Without | app.py:255 | deleting a row shifts the later rows down by one and keeps the earlier ones |
| Updates.WithStatus | app.py:262 | only the chosen visit changes, and only in its status, which becomes the given text |
| Updates.AdmitKeepsPhonesUnique | app.py:21 | after the upsert, no two patients share a phone |
| Updates.AdmitKeepsIdsAscending | app.py:124-129 | after the upsert, patient ids still ascend |
| Updates.AdmittedOwnsPhone | app.py:115-129 | after the upsert, the submitted phone belongs to the patient the visit is filed under |
| Updates.AdmitKeepsOwners | app.py:123-134 | no patient disappears, and the visit's patient exists |
| Updates.CheckupConsistent | app.py:111-148 | a checkup form leaves the database consistent |
| Updates.SamePhoneTwice | app.py:115-123 | registering the same phone twice creates one patient, and both visits go under its id |
| Updates.WithoutRemovesOnly | app.py:253-256 | deleting removes exactly the visit with that id |
| Updates.WithoutConsistent | app.py:253-256 | deleting a visit keeps the database consistent |
| Updates.WithStatusConsistent | app.py:259-263 | setting a status keeps the database consistent, and setting it again changes nothing |
| Reminders.Owner | app.py:290 | a visit's patient is in the table and has the visit's patient id |
| Reminders.MarkSent | app.py:306-307 | after the sweep, the flag is set on exactly the delivered visits, and nothing else changes |
| Reminders.StepEffect | app.py:286-313 | a visit already reminded is skipped with nothing sent and one "Skipped" line naming its patient; any other visit gets one attempt and a "Sending" line naming its patient, then "Sent" on a delivery, which marks it and adds one to the count, or "Failed" with the channel's text on a failure, which changes neither |
| Reminders.RunAttemptsCount | app.py:285-313 | one attempt per visit not yet reminded, and the count never exceeds them |
| Reminders.RunSentPending | app.py:286-310 | only visits that were waiting are marked delivered |
| Reminders.RunCountIsSent | app.py:306-310 | the count is the number of visits marked delivered |
| Reminders.RunAccounting | app.py:284-313 | the sweep's attempt, delivery and count bounds together |
| Reminders.RunLogCount | app.py:285-313 | the per-visit log has one line per visit plus one per attempt, only per-visit kinds of line, and as many "Sent" lines as the count |
| Reminders.RunLogLines | app.py:286-313 | each visit's lines sit right after those of the visits before it: "Skipped" with the owner's name for a visit already reminded, otherwise "Sending" with the owner's name followed by "Sent" or "Failed" with the channel's text, as the attempt made for it went |
| Reminders.RunLogsFailures | app.py:286-313 | every failed attempt leaves a "Failed" line with the channel's text, and every visit already reminded a "Skipped" line |
| Reminders.ReportShape | app.py:279-320 | the log opens with the scanning line; with nothing due it only adds the no-appointments line; otherwise the per-visit lines follow, then the closing line chosen by the count |
| Reminders.ReportOutcome | app.py:314-320 | with nothing due no attempt is made and the log ends with the no-appointments line; otherwise it ends with "no new messages" exactly when nothing was delivered, and with the number delivered otherwise |
| Reminders.RunSentIff | app.py:303-313 | a due visit is marked exactly when it was waiting and the channel delivered the attempt made for it |
| Reminders.RunAttemptAddressed | app.py:290-304 | the attempt for a waiting visit carries its owner's name and the visit's procedure, sent to the owner's normalised number |
| Reminders.OnlyDueTouched | app.py:281-310 | a row the sweep changes is a visit due tomorrow whose reminder was not yet sent; every other row is left as it was |
| Reminders.MarkSentScheduled | app.py:281 | setting flags does not change which visits are due |
| Reminders.MarkSentPending | app.py:306 | after marking, the waiting visits are those that were waiting and not delivered |
| Reminders.SweepsDisjoint | app.py:286-310 | a second sweep delivers to none of the visits the first delivered, and both together deliver at most once per waiting visit |
| Reminders.SecondSweepResendsNothing | app.py:281-310 | a second sweep on the table the first left never re-sends a delivered reminder |
| Reminders.ScheduledOwned | app.py:290 | every visit due has its patient |
| Reminders.MarkSentOneMore | app.py:306 | setting one more flag in place is the table with one more delivery marked |
| Reminders.MarkSentConsistent | app.py:306-307 | setting flags keeps the database consistent |
| Reminders.Welcome | app.py:228-250 | no attempt for a missing or already welcomed patient; otherwise one attempt, marked welcomed exactly when delivered; the table changes only on delivery |
| Reminders.WelcomeAddressed | app.py:234-244 | the attempt is made exactly when the patient was not yet welcomed, goes to the patient's normalised number with the patient's name, and a delivery sets the flag |
| Reminders.WelcomeChangesOnlyFlag | app.py:245 | a row can differ after the link only in its welcome flag, only for that id, and only from unset to set |
| Reminders.WelcomeAtMostOnce | app.py:231-232 | once delivered, following the link again sends nothing |
| Reminders.WelcomeRetriedAfterFailure | app.py:247-248 | after a failure, the next click makes the same attempt again |
| Reminders.WelcomeConsistent | app.py:245-246 | the welcome keeps the database consistent |
| Clinic.CombineMedicines | app.py:189-198 | the loop builds the combined medicine history |
| Clinic.Store.constructor | app.py:50-51 | a new database is empty and consistent |
| Clinic.Store.AddPatient | app.py:91-152 | the tables become the upsert and the appended visit; a new id is returned exactly when a patient was created, and it is that patient's id |
| Clinic.Store.SendWelcome | app.py:227-250 | the patients table, the outcome and the attempt are those of the welcome; visits are untouched |
| Clinic.Store.DeleteVisit | app.py:252-257 | found exactly when a visit has the id; afterwards the visits are the old ones minus that id; patients are untouched |
| Clinic.Store.UpdateStatus | app.py:259-264 | found exactly when a visit has the id; only that visit's status changes |
| Clinic.Store.SendReminders | app.py:274-322 | the log is the report of the sweep, the attempts are the sweep's, the flags of exactly the delivered visits are set, and the store stays consistent |
| Clinic.Store.MarkReminded | app.py:306-307 | setting one visit's flag in place marks one more delivery |
| Clinic.Store.ShowAll | app.py:176-204 | the rows are the sorted newest-visit rows with combined histories |
| Clinic.Store.AppointmentsPage | app.py:158-224 | each kind of request gives its listing and filter boxes, and the prompt is the welcome prompt |

## Left out

- **Web layer.** Routing, form and query-string parsing, redirects and
  templates are not modelled. Each route is a method whose parameters are
  the request's fields and whose results are what the page shows.
- **Database session.**
  - Sessions and `db.create_all` are not modelled.
  - A commit is an immediate update of the fields.
  - A failure of the commit itself is not modelled.
  - Requests are sequential, so concurrent requests are not modelled.
- **Id width.** Ids are unbounded naturals; the 64-bit width of SQLite
  rowids is left out.
- **Column lengths.** The declared column lengths (`String(20)` and the
  like) are not modelled; SQLite does not enforce them.
- **The external send.** `pywhatkit.sendwhatmsg_instantly` becomes the
  `reply` and `channel` oracles. Its wait and tab-closing arguments are
  left out.
- **Timing and printing.** `time.sleep(5)` after a delivery and the `print`
  of a welcome failure are left out.
- **Dates.** `date.today()` and `timedelta` are left out; today and tomorrow
  are parameters, already formatted as text.
- **Message text.** The emoji and marketing text are reduced to what they
  mention:
  - the welcome message, the patient's name;
  - the reminder, the name, the procedure and the date.
- **LIKE wildcards.** `%` and `_` typed into a search fragment or a procedure
  filter are matched literally. Only ASCII letters are case-folded, as
  SQLite's `LIKE` does.
- **Age.** The age is kept as the submitted text; its coercion to the
  integer column is not modelled.
- Registration.Page: the `select_id` argument is an already-parsed id.
  Ids that do not parse are not modelled.
- **Missing form fields.** A missing `phone` or `name` field, or a missing
  `search_name` beside a pressed search button, makes the route fail. This
  is not modelled: the form is given whole.
- Clinic.Store.UpdateStatus:
  - The route fails on a missing id when it assigns the status. The model
    returns `found = false` and changes nothing.
  - The model accepts any status text, including a `/`, which the route's
    URL pattern cannot carry.
- Clinic.Store.ShowAll: modelled on values. It cannot show that the ORM
  objects shown are the same objects the session holds. The uncommitted
  overwrite of the medicine box is therefore not a change of the store.
- Reminders.Owner: a visit's patient is found by id. Every visit has one,
  since a visit's patient id is a non-null foreign key and patients are
  never deleted.
- **The automation page.** The automation page without a sweep only renders
  an empty log.
