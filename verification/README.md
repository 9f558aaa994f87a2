# e-Visa portal: a Dafny model of the application workflow

This project models the core of the e-Visa portal of the Democratic Republic of the Congo. Travellers open a draft application, fill it in and submit it. Submitting it opens a payment. Administrators review the application and approve, refuse or ask for more information. An approval issues a visa with a validity window and a printable PDF. Travellers track their application by reference and e-mail, and border staff verify a visa by its code.

The modules follow the program's files:

- `Schema` holds the data model: the status enumerations, the label tables, the table rows and the wizard's form schemas.
- `Storage` models the storage layer. Each table is a sequence of rows in insertion order. A query that returns `result[0]` returns the first matching row. A write that would break a primary key or a `UNIQUE` column fails.
- `AdminController`, `ApplicationsController` and `VisaController` model the HTTP handlers. Each handler is a function from the store and the request to the next store and the reply. Replies come from `Http`.
- `Validation` models the shared approval and form validation.
- `RequestSchemas` models the server's request schemas.
- `Helpers` models the number and code formats.
- `Upload` models the upload configuration.
- `EnvFile` models the `.env` loader.
- `PdfService` models the template data of the printed visa.
- `ApplyWizard`, `Dashboard`, `TrackPage`, `VerifyPage`, `PaymentStep` and `DocumentsStep` model the client pages as pure functions over their state. As written, the application wizard page cannot be drawn at all: its price lookup fails for every visa type it offers (see "## Findings"). `ApplyWizard` models its rules as if it could.
- `Text`, `Digits`, `Calendar` and `Records` give JavaScript's string, number-formatting, date and object-assignment built-ins the meaning the program relies on.

Some inputs come from outside the program and are parameters of the model:

- The clock is a millisecond timestamp.
- Calendar dates are day numbers counted from 1970-01-01 in UTC.
- Generated ids and random digits are given by the caller.
- `getCountryISO3` and zod's e-mail check are function parameters.
- File contents, locale date formatting and the PDF renderer are parameters of `PdfService`.

## Model

| member | source | states |
|---|---|---|
| AdminController.AdminLogin | server/controllers/admin.controller.ts:7-25 | 200 with id, username, role and fullName (never the password) iff a user with that name exists and its stored password equals the given one exactly; otherwise 401 "Invalid credentials" |
| AdminController.LoginIffCredentials | server/controllers/admin.controller.ts:11-15 | with unique user names, login succeeds iff some user row has exactly that name and password, and the answer carries that row's id |
| AdminController.DecisionPatch | server/controllers/admin.controller.ts:79-86 | the update sets the requested status; `REJECTED` writes the notes as rejection reason, `NEED_INFO` and `APPROVED` as admin notes, and no other column is set |
| AdminController.StayDuration | server/controllers/admin.controller.ts:89-91 | the stay is the matching product's `durationDays`, or 30 when no product matches |
| AdminController.ValidityStart | server/controllers/admin.controller.ts:93-94 | validity starts on the arrival day when the row has one and today otherwise; an arrival text that is not a date fails, as `toISOString` throws |
| AdminController.ApprovalVisa | server/controllers/admin.controller.ts:99-109 | the visa asked for: the application id, `generateVisaNumber` of the next sequence, a verification code, `validFrom` and `validTo` as `YYYY-MM-DD` the stay apart, the stay, and `/api/visas/<id>/pdf` |
| AdminController.DecisionAudit | server/controllers/admin.controller.ts:117-124 | the audit entry names `APPLICATION_<requested status>`, the application, no actor id, and records the previous status, the requested status and the notes |
| AdminController.Conclude | server/controllers/admin.controller.ts:114-126 | the row is patched first; the answer is 200 with the patched row iff the audit entry is then stored, and otherwise a 500 that keeps the patched row |
| AdminController.UpdateApplicationStatus | server/controllers/admin.controller.ts:68-131 | a body the schema refuses is a 500 and an unknown id a 404, both writing nothing; a success answers the row with that id, `ISSUED` after an approval and the requested status otherwise |
| AdminController.Approve | server/controllers/admin.controller.ts:85-114 | an approval that succeeds answers the row as `ISSUED` |
| AdminController.OtherDecision | server/controllers/admin.controller.ts:71-86 | any decision but approval, whatever the current status: no visa; the row takes the requested status and the notes (as rejection reason or admin notes) and nothing else but `updatedAt`; the audit log grows by one entry iff its id is free, and the failure is a 500 |
| AdminController.Approval | server/controllers/admin.controller.ts:85-126 | with the corrected `createVisa`, an approval stores one visa numbered from the next sequence, valid from the start day for the stay, then records the row as `ISSUED` with the notes as admin notes; a refused visa writes nothing |
| AdminController.ApproveOutcome | server/controllers/admin.controller.ts:101-126 | an approval succeeds iff the visa is stored and the audit id is free; a refused visa is a 500 with the store unchanged |
| AdminController.ApproveStored | server/controllers/admin.controller.ts:101-124 | after a successful approval the visa table grows by exactly the stored visa, the row is `ISSUED` with the notes as admin notes, and the audit entry records the requested `APPROVED` |
| AdminController.ApprovalVisaStored | server/controllers/admin.controller.ts:99-109 | the stored visa carries the application id, the visa number of the next sequence, the start day, the start day plus the stay, and the stay |
| AdminController.ApproveSteps | server/controllers/admin.controller.ts:101-114 | the visa is written before the row: a refused visa ends the request, and a stored one leaves the application row untouched for the update that follows |
| AdminController.ConcludeApproval | server/controllers/admin.controller.ts:111-124 | the approval's row update and audit entry: no further visa, the row `ISSUED` with the notes as admin notes, the audit entry appended iff its id is free |
| AdminController.ApprovalAsWrittenFails | server/storage.ts:179-180 | with `createVisa` as written, every approval of an existing application answers 500 and writes nothing |
| AdminController.ValidityWindowLength | server/controllers/admin.controller.ts:94-106 | `validFrom` and `validTo` read back as the days they were written from, so the dates on the visa lie exactly the stay apart |
| ApplicationsController.GetApplicationReply | server/controllers/applications.controller.ts:8-22 | the row with that id iff one exists, otherwise 404 "Demande introuvable" |
| ApplicationsController.DraftNumber | server/controllers/applications.controller.ts:29-35 | a draft number splits at `-` into `eVisa`, the ISO3 code, the two-digit year and the sequence padded to at least five digits, and that last field reads back as the sequence |
| ApplicationsController.DraftNumberInjective | server/controllers/applications.controller.ts:33-35 | two different sequences give two different draft numbers |
| ApplicationsController.DraftVisaType | server/controllers/applications.controller.ts:39 | an absent or empty visa type becomes `VOLANT_ORDINAIRE`; a given one is kept |
| ApplicationsController.DraftInsert | server/controllers/applications.controller.ts:38-47 | the row inserted is a `DRAFT` with the draft number, the sequence, the visa type and the four body fields, and nothing else |
| ApplicationsController.DraftAudit | server/controllers/applications.controller.ts:54-61 | the audit entry `APPLICATION_DRAFT_CREATED` names the new row, is signed "first last", and records the number and the sequence |
| ApplicationsController.CreateDraftApplication | server/controllers/applications.controller.ts:24-68 | a body the schema refuses is a 500 that writes nothing; a success is 201 with a `DRAFT` row under the new id; no path touches payments or visas |
| ApplicationsController.DraftRow | server/controllers/applications.controller.ts:29-63 | a created draft carries `eVisa-<ISO3>-<YY>-<sequence>` with the next sequence, stores that same sequence, has the fallback visa type, payment status `INITIATED` and no submission time, is appended to the table, and is audited |
| ApplicationsController.DraftRefusedIff | server/controllers/applications.controller.ts:24-67 | a draft is created iff the schema accepts the body, the id and the number are both unused, and the audit id is free |
| ApplicationsController.SubmissionAmount | server/controllers/applications.controller.ts:84-86 | the amount is the matching product's price plus 5, or 255 when no product matches |
| ApplicationsController.SubmissionPayment | server/controllers/applications.controller.ts:91-100 | the payment opened is a `PENDING` M-Pesa payment of that amount for the application, with its phone or `""`, without transaction id or payment time |
| ApplicationsController.SubmissionAudit | server/controllers/applications.controller.ts:121-128 | the audit entry `APPLICATION_SUBMITTED` names the application and records the number it had before the update |
| ApplicationsController.Submit | server/controllers/applications.controller.ts:82-131 | the side effects of a submission never touch the applications or visas; a success answers 200 with the updated row and a failure 500 |
| ApplicationsController.UpdateApplicationReply | server/controllers/applications.controller.ts:70-136 | an unknown id is a 404 that writes nothing; a success answers 200 with the stored row patched by the unvalidated body; visas are never touched |
| ApplicationsController.UpdateWithoutSubmission | server/controllers/applications.controller.ts:80-82 | anything but the submission of a draft patches the row and nothing else: no payment, no audit entry; it fails (500, nothing written) iff the body's number clashes |
| ApplicationsController.SubmissionOpensPayment | server/controllers/applications.controller.ts:82-100 | submitting a draft without a payment appends exactly one `PENDING` payment for it, of the product price plus 5 (or 255), with the row's phone |
| ApplicationsController.SubmitOpensPayment | server/controllers/applications.controller.ts:88-100 | the submission side effects, when the application has no payment, append exactly that one pending payment |
| ApplicationsController.PaymentsOf | server/controllers/applications.controller.ts:89-90 | the count of an application's payments is zero iff no payment names it, and never exceeds the table |
| ApplicationsController.PaymentsOfAppend | server/controllers/applications.controller.ts:91 | appending a payment adds one to its own application's count and nothing to any other |
| ApplicationsController.AtMostOnePayment | server/controllers/applications.controller.ts:88-90 | an update keeps every application at one payment at most |
| ApplicationsController.SubmitAtMostOnePayment | server/controllers/applications.controller.ts:88-100 | the submission side effects keep every application at one payment at most |
| ApplicationsController.ConfirmPayment | server/controllers/applications.controller.ts:103-117 | the delayed confirmation marks the application's payment `PAID` and the application's payment status `PAID`; without a payment the store is unchanged; visas and audit logs are untouched |
| ApplicationsController.PayPayment | server/controllers/applications.controller.ts:107-111 | the payment with that id becomes `PAID`; applications, visas and audit logs are unchanged |
| ApplicationsController.MarkApplicationPaid | server/controllers/applications.controller.ts:112-114 | the rows with that id get payment status `PAID`, which cannot clash as no number is written; nothing else changes |
| ApplicationsController.TrackApplication | server/controllers/applications.controller.ts:138-163 | 400 without an e-mail; otherwise a row is answered only when its number and its e-mail both equal the given ones ignoring case, and every refusal is the same 404 |
| ApplicationsController.TrackHidesExistence | server/controllers/applications.controller.ts:149-156 | a wrong e-mail gets the same answer as a reference that exists nowhere |
| ApplicationsController.TrackIff | server/controllers/applications.controller.ts:143-158 | tracking answers the row iff the e-mail is non-empty and the first application with that number (ignoring case) has that e-mail (ignoring case) |
| ApplicationsController.TrackIgnoresCase | server/controllers/applications.controller.ts:147-154 | references and e-mails that differ only in letter case get the same answer |
| ApplyWizard.CanProceed | client/src/pages/apply.tsx:127-137 | the applicant step may be left iff its six fields (first and last name, e-mail, passport number, nationality, arrival date) are all non-empty, the sponsor step iff its four are; the other steps always may |
| ApplyWizard.ApplicantFieldsFilled | client/src/pages/apply.tsx:128-131 | the applicant step's list of required fields is exactly the six fields `canProceed` tests |
| ApplyWizard.SponsorFieldsFilled | client/src/pages/apply.tsx:132-135 | the sponsor step's list of required fields is exactly the four fields `canProceed` tests |
| ApplyWizard.NextStep | client/src/pages/apply.tsx:139-141 | `nextStep` moves one step forward below step 4 and does nothing on it; the form and the box are kept |
| ApplyWizard.PrevStep | client/src/pages/apply.tsx:143-145 | `prevStep` moves one step back above step 1 and does nothing on it; the form and the box are kept |
| ApplyWizard.NextPrevInverse | client/src/pages/apply.tsx:139-145 | inside the range, forward then back, or back then forward, returns to the same page |
| ApplyWizard.GoToStep | client/src/pages/apply.tsx:164 | a step button changes the step iff its id is earlier than the current one, and then to that id |
| ApplyWizard.UpdateField | client/src/pages/apply.tsx:87-89 | `updateField` sets the named field to the value and keeps every other field, the step and the box |
| ApplyWizard.ApplyStaysInRange | client/src/pages/apply.tsx:139-172 | every user action keeps the step within 1..4 and advances it by at most one |
| ApplyWizard.RunStaysInRange | client/src/pages/apply.tsx:42 | any sequence of actions from a step in 1..4 leaves the step in 1..4 |
| ApplyWizard.InitialRunsStayInRange | client/src/pages/apply.tsx:42 | from the page's initial step 1, every run of actions leaves the step in 1..4 |
| ApplyWizard.ForwardNeedsProceed | client/src/pages/apply.tsx:929-932 | the only action that moves forward is an enabled "Next", which needs `canProceed`, and it moves exactly one step |
| ApplyWizard.StepButtonsGoBack | client/src/pages/apply.tsx:164-172 | a step button never moves forward, and moves back iff it names an earlier step in 1..4 |
| ApplyWizard.RunAdvancesAtMostOnePerEvent | client/src/pages/apply.tsx:139-141 | after a run of actions the step exceeds its start by at most the number of actions |
| ApplyWizard.InitialCannotProceed | client/src/pages/apply.tsx:45-85 | the fresh form, with its required fields empty, cannot leave the applicant step, and "Next" leaves it unchanged |
| ApplyWizard.HandleSubmit | client/src/pages/apply.tsx:115-125 | submitting posts the whole form iff the certification box is ticked; otherwise only the "Certification requise" toast is shown |
| ApplyWizard.SubmitButtonPosts | client/src/pages/apply.tsx:941-942 | an enabled submit button always posts the form; a toast can only come from a button that would be disabled |
| ApplyWizard.CertifyOnSummaryOnly | client/src/pages/apply.tsx:713-865 | the certification box, drawn on the summary step alone, sets the tick there and leaves the page unchanged on any other step |
| ApplyWizard.RunPostsOnlyAfterCertify | client/src/pages/apply.tsx:115-125 | from an unticked box, no run of actions without a tick of the box can post |
| ApplyWizard.ShownPrice | client/src/pages/apply.tsx:91-92 | the price is the `visaTypeLabels` price of the form's visa type; for a type the table does not describe there is none, and reading `price` of `undefined` throws, so the page is not drawn |
| ApplyWizard.InitialPriceMissing | client/src/pages/apply.tsx:46 | the page's own default visa type `VOLANT_ORDINAIRE` has no `visaTypeLabels` entry, so the price lookup finds none (see also client/src/pages/apply.tsx:91-92) |
| ApplyWizard.RunKeepsVisaTypeAmong | client/src/pages/apply.tsx:198-207 | while every change of the visa type picks one of a list of choices, a form whose type is among them keeps a type among them, whatever else the user does |
| ApplyWizard.OfferedRunsNeverRender | client/src/pages/apply.tsx:91-92 | as written, neither choice of the selector (`VOLANT_ORDINAIRE`, `VOLANT_SPECIFIQUE`) has a price entry, so from the initial page every run of actions ends on a render that throws (see also client/src/pages/apply.tsx:205-206) |
| ApplyWizard.LabelledRunsRender | client/src/pages/apply.tsx:91-92 | when the selector's choices and the starting type all have a `visaTypeLabels` entry, every run of actions renders the table's price for the chosen type |
| Calendar.Midnight | shared/validation.ts:37-38 | the instant a `YYYY-MM-DD` date is coerced to is midnight UTC of that day, and falls on that day |
| Calendar.CivilFromDays | shared/validation.ts:16-24 | the year, month and day `getFullYear`/`getMonth`/`getDate` read from a day form a real calendar date whose day number is that day |
| Calendar.CivilRoundTrip | shared/validation.ts:16-24 | every real calendar date is the date of its own day number |
| Calendar.DaysFromCivilInjective | shared/validation.ts:16-24 | distinct real dates have distinct day numbers |
| Calendar.CivilOrder | shared/validation.ts:18-22 | one day comes no later than another iff its civil date does, by year, then month, then day |
| Calendar.EarlierDate | shared/validation.ts:18-22 | of two real dates, the one with the smaller day number is the earlier in the calendar |
| Calendar.ShiftMonths | shared/validation.ts:4-8 | moving a date by `k` months keeps the day of the month and moves the month count by exactly `k`, carrying into the year |
| Calendar.AddMonths | shared/validation.ts:4-8 | adding no months gives the same day; a day of the month of 28 or less lands on the same day of the month `k` months on |
| Calendar.AddMonthsZero | shared/validation.ts:4-8 | adding no months leaves the day unchanged |
| Calendar.AddMonthsKeepsDay | shared/validation.ts:4-8 | when the day of the month exists in every month (28 or less), `setMonth` lands on the same day of the shifted month |
| Calendar.ParseIsoDate | shared/validation.ts:176-177 | a `YYYY-MM-DD` text is read iff it has that shape with month 1 to 12 and day 1 to 31, and its day number is the first of that month plus the day less one, so a day past the month's end runs on |
| Calendar.ParseDateText | shared/validation.ts:176-177 | a zero-padded year, month and day text is read iff the month is 1 to 12 and the day 1 to 31, as the day counted on from the first of the month |
| Calendar.ParseIsoDateRollsOver | shared/validation.ts:176-177 | a day past the end of its month (up to 31) reads as the matching day of the next month, as 2025-02-30 reads as 2025-03-02 |
| Calendar.IsoDateRoundTrip | server/controllers/admin.controller.ts:105-106 | the `YYYY-MM-DD` text written for a day of the years 0 to 9999 has ten characters and reads back as that very day |
| Calendar.DateFields | server/controllers/admin.controller.ts:105-106 | the year, month and day sit at fixed positions of a `YYYY-MM-DD` text, between its two dashes |
| Validation.AddDays | shared/validation.ts:10-14 | `addDays(now, n)` is the same time of day, `n` days later |
| Validation.GetAge | shared/validation.ts:16-24 | the age is the number of the last birthday that has come: the birthday that many years after birth is on or before today, the next one is after today |
| Validation.AgeAtLeast | shared/validation.ts:16-24 | `getAge` is at least `n` iff the `n`-th birthday (same month and day) has come by today |
| Validation.AgeMonotone | shared/validation.ts:16-24 | the age computed never decreases as today moves on |
| Validation.Check | shared/validation.ts:27-112 | a rule yields one issue on its field exactly when it fails |
| Validation.InstitutionCodeIssues | shared/validation.ts:29-34 | no issue iff the code is absent or has at most 50 characters, all letters (either case), digits or hyphens; the empty code passes |
| Validation.ArrivalTomorrowRefused | shared/validation.ts:42-44 | as written, a form filled in after midnight refuses tomorrow as arrival day, although tomorrow is in the calendar-day range |
| Validation.ArrivalRulesAgree | shared/validation.ts:42-47 | the written arrival rule only ever refuses more than the calendar-day rule, differs from it on tomorrow alone, and agrees with it at midnight |
| Validation.ArrivalDateValidAsWritten | shared/validation.ts:42-47 | the arrival rule as written: UTC midnight of the arrival day is no earlier than the current instant plus one day and no later than the current instant plus 90 days |
| Validation.ArrivalDayValid | shared/validation.ts:42-47 | the arrival rule by calendar day: the arrival day is from tomorrow to 90 days after today |
| Validation.ArrivalDateIssuesAsWritten | shared/validation.ts:37-47 | the schema's arrival issues: none iff the arrival is a date whose UTC midnight is no earlier than the current instant plus one day and no later than the current instant plus 90 days; a missing or invalid date gets "Invalid date", an early one "at least tomorrow", a late one "at most 90 days" |
| Validation.TomorrowArrivalRefused | shared/validation.ts:42-44 | a form filled in after midnight with tomorrow as arrival gets exactly the "at least tomorrow" issue on `arrivalDate`, and the schema refuses it |
| Validation.ArrivalDateIssues | shared/validation.ts:37-47 | the corrected arrival issues, judged by calendar day: none iff the arrival is a date from tomorrow to 90 days after today; a missing or invalid date gets "Invalid date" |
| Validation.ArrivalIssuesAgree | shared/validation.ts:42-47 | whatever the schema's arrival check accepts, the calendar-day check accepts too, and the two give the same issues for every arrival but tomorrow |
| Validation.PassportNumberIssues | shared/validation.ts:50-56 | no issue iff the passport number is present, 6 to 15 characters long, and made only of letters (either case) and digits; the empty number fails the pattern as well as the minimum length |
| Validation.EmptyPassportNumberIssues | shared/validation.ts:50-56 | an empty passport number gets two issues, "too short" then "letters and digits only", because `[A-Z0-9]+` needs at least one character |
| Validation.PassportExpiryIssues | shared/validation.ts:59-62 | no issue iff the expiry is a date |
| Validation.DateOfBirthIssues | shared/validation.ts:65-75 | no issue iff the birth date is a date before now and the applicant is at least 18 today |
| Validation.MinLengthIssues | shared/validation.ts:78-89 | a required text passes iff it is present with at least the minimum length; otherwise its "required" or "too short" message |
| Validation.PhoneIssues | shared/validation.ts:92-97 | no issue iff the phone is present, has at least 8 characters and matches an optional `+` followed by digits, spaces, hyphens and parentheses |
| Validation.GenderIssues | shared/validation.ts:100-103 | no issue iff the gender is `M` or `F` |
| Validation.GenderVocabulariesDisjoint | shared/validation.ts:100 | no gender value satisfies both the form's `M`/`F` and the wizard's `male`/`female`/`other` (see also shared/schema.ts:185) |
| Validation.PurposeIssues | shared/validation.ts:106-111 | no issue iff the purpose is present with 10 to 500 characters |
| Validation.FieldOrderComplete | shared/validation.ts:27-112 | the declared field order lists every field of the schema |
| Validation.IssuesOf | shared/validation.ts:27-112 | a field yields no issue iff its rule holds (for the arrival date, the rule as written, against the current instant), and never yields the cross-field issue |
| Validation.IssuesOfAll | shared/validation.ts:27-112 | the fields of a list yield no issue iff every field's rule holds |
| Validation.FieldIssues | shared/validation.ts:27-112 | the ten fields yield no issue iff all ten rules hold |
| Validation.FieldsInOrder | shared/validation.ts:27-112 | all field rules hold iff the rule of every field in the declared order holds |
| Validation.ValidateApplication | shared/validation.ts:115-125 | the schema accepts the form iff every field rule holds (the arrival rule as written, so tomorrow is refused after midnight) and the passport expires strictly after arrival plus six months; the cross-field issue on `passportExpiry` appears iff every field is well typed and the passport does not cover the stay |
| Validation.PassportCoversStay | shared/validation.ts:174-180 | the passport covers the stay iff it expires strictly after the day six months past arrival; an expiry on that day is refused |
| Validation.IssuesConcat | shared/validation.ts:115-125 | field issues followed by the cross-field issue are empty iff the fields are valid and the passport covers the stay |
| Validation.CrossIssues | shared/validation.ts:115-125 | the cross-field rule adds its single issue iff the input is well typed and the passport does not cover six months past arrival |
| Validation.FieldsValidWellTyped | shared/validation.ts:27-112 | input that passes every field rule has every date and required field, and a gender from the enum |
| Validation.IssuePairs | shared/validation.ts:197-199 | each issue becomes the pair of its dot-joined path and its message, in order |
| Validation.FormatValidationErrors | shared/validation.ts:194-203 | the keys are exactly the dot-joined paths of the issues, and each holds the message of the last issue with that path |
| Validation.ApprovalMessagesDistinct | shared/validation.ts:159-185 | the five checks append five different texts |
| Validation.Flag | shared/validation.ts:159-185 | a check appends its error iff it fails, after the errors of the earlier checks |
| Validation.FailedChecks | shared/validation.ts:159-185 | each of the five errors is listed iff its check fails, each at most once, in the order the checks run |
| Validation.ApprovalErrors | shared/validation.ts:159-185 | photo missing, passport copy missing, payment status other than `PAID`, passport expiring on or before arrival plus six months (both dates present), arrival before now: each error appears iff its condition holds, in that order, at most five |
| Validation.ValidateBeforeApproval | shared/validation.ts:156-191 | `valid` iff the error list is empty, and the list holds the texts of the failed checks in order |
| Validation.ApprovalImpliesCrossRule | shared/validation.ts:174-185 | an application that passes the pre-approval check with readable dates satisfies the form's cross-field rule, and its arrival has not passed |
| Dashboard.ActionStatus | client/src/pages/admin/dashboard.tsx:111-123 | approve asks for `APPROVED`, reject for `REJECTED`, request-info for `NEED_INFO`, each a status the server's decision schema accepts |
| Dashboard.ActionStatusInjective | client/src/pages/admin/dashboard.tsx:111-123 | distinct decisions ask for distinct statuses |
| Dashboard.HandleAction | client/src/pages/admin/dashboard.tsx:108-131 | a request is sent iff an application is selected and a decision chosen; it names the selected application, the decision's status and the typed note verbatim |
| Dashboard.SentDecisionAccepted | client/src/pages/admin/dashboard.tsx:125-130 | every request the dashboard sends passes the server's status schema, which reads back exactly the decision's status and the note (see also server/utils/schemas.ts:11-14) |
| Dashboard.ConfirmRule | client/src/pages/admin/dashboard.tsx:488 | confirming a refusal or information request needs a note that is not blank; an approval can be confirmed with any note when nothing is pending; nothing can be confirmed while a request is pending |
| Dashboard.FilterApps | client/src/pages/admin/dashboard.tsx:133-143 | the shown rows are fetched rows that match both the search and the status filter, and every such fetched row is shown |
| Dashboard.MatchesSearch | client/src/pages/admin/dashboard.tsx:134-138 | a row matches the search iff the query is empty, or it occurs, ignoring case, in the application number, in "first last" name, or in the passport number when there is one |
| Dashboard.MatchesStatus | client/src/pages/admin/dashboard.tsx:140 | a row matches the status filter iff the filter is `all` or names the row's status |
| Dashboard.FilterIsSubsequence | client/src/pages/admin/dashboard.tsx:133 | the shown rows keep the fetched order: they are a subsequence of the fetched list |
| Dashboard.NoFilterShowsAll | client/src/pages/admin/dashboard.tsx:135-140 | with an empty search and the `all` filter, every fetched row is shown, in order |
| Dashboard.LowerOfUpper | client/src/pages/admin/dashboard.tsx:136-138 | lower-casing forgets an earlier upper-casing |
| Dashboard.SearchIgnoresCase | client/src/pages/admin/dashboard.tsx:136-138 | typing the query in capitals shows the same rows |
| Dashboard.SameShownSameFilter | client/src/pages/admin/dashboard.tsx:133-143 | two queries that match the same rows filter every list the same way |
| DocumentsStep.Init | client/src/components/application-form/documents-step.tsx:118-120 | each slot starts with the value passed in, or `""` when it is missing or empty |
| DocumentsStep.Set | client/src/components/application-form/documents-step.tsx:117-120 | changing a slot sets that slot and keeps the two others |
| DocumentsStep.Choose | client/src/components/application-form/documents-step.tsx:31-45 | choosing or dropping files stores the first file's name in the slot; with no file nothing changes |
| DocumentsStep.Remove | client/src/components/application-form/documents-step.tsx:88 | the remove button empties its slot and keeps the two others |
| DocumentsStep.CanProceedIffRequiredFilled | client/src/components/application-form/documents-step.tsx:122 | the step can be left iff every required slot (passport scan, photo) is filled; the invitation letter is optional |
| DocumentsStep.HandleNext | client/src/components/application-form/documents-step.tsx:124-129 | "next" saves the three values and moves on iff the step can be left, and otherwise does nothing |
| DocumentsStep.NextButtonAgrees | client/src/components/application-form/documents-step.tsx:122-129 | the "next" button is disabled exactly when `handleNext` would do nothing |
| DocumentsStep.RemoveRequiredBlocks | client/src/components/application-form/documents-step.tsx:88-122 | removing a required document blocks the step; removing the invitation letter never changes whether it can be left |
| DocumentsStep.ChooseThenRemove | client/src/components/application-form/documents-step.tsx:31-45 | choosing a file then removing it leaves the step as removing alone would (see also client/src/components/application-form/documents-step.tsx:88) |
| DocumentsStep.ChosenRequiredProceed | client/src/components/application-form/documents-step.tsx:40-45 | choosing files with non-empty names for the passport scan and the photo lets the step be left (see also client/src/components/application-form/documents-step.tsx:122) |
| DocumentsStep.EmptyInputBlocks | client/src/components/application-form/documents-step.tsx:118-122 | a step opened without documents cannot be left |
| PaymentStep.Total | client/src/components/application-form/payment-step.tsx:38-82 | the total shown is the `visaTypeLabels` price of the type plus 5, for exactly the four types the table describes |
| PaymentStep.TotalMatchesServerAmount | client/src/components/application-form/payment-step.tsx:82 | the total shown equals the amount the server charges whenever the visa product of that type carries the table's price (see also server/controllers/applications.controller.ts:84-86) |
| PaymentStep.FallbackAmountNeverShown | client/src/components/application-form/payment-step.tsx:186 | without a visa product of the type, the server's fallback of 255 differs from the total the page shows (see also server/controllers/applications.controller.ts:86) |
| PaymentStep.PaymentIssues | client/src/components/application-form/payment-step.tsx:21-26 | a phone number shorter than 9 or longer than 15 characters, and unaccepted terms, each raise their own issue |
| PaymentStep.IssuesIffInvalid | client/src/components/application-form/payment-step.tsx:21-26 | the schema reports no issue iff the phone has 9 to 15 characters and the terms are accepted |
| PaymentStep.HandleSubmit | client/src/components/application-form/payment-step.tsx:40-50 | a form reaches `onSubmit` iff the schema accepts it, and then only its 9-to-15-character phone number is passed on |
| PaymentStep.DefaultFormRefused | client/src/components/application-form/payment-step.tsx:42-45 | the opening form cannot be submitted: its phone is too short and its terms unaccepted |
| PaymentStep.OnlyPhoneForwarded | client/src/components/application-form/payment-step.tsx:48-50 | accepted forms with the same phone number hand the caller the same thing |
| TrackPage.Open | client/src/pages/track.tsx:26-33 | a truthy `?ref=` fills the reference input and is submitted at once; no e-mail is submitted |
| TrackPage.HandleSearch | client/src/pages/track.tsx:48-54 | a search is submitted iff both the trimmed reference and the trimmed e-mail are non-empty, and the trimmed values are what is submitted; otherwise nothing changes |
| TrackPage.Lookup | client/src/pages/track.tsx:35-46 | the lookup runs iff both a reference and an e-mail are submitted, and asks the tracking endpoint for that reference with that e-mail |
| TrackPage.SearchEnablesLookup | client/src/pages/track.tsx:48-54 | an accepted search enables the lookup, and the server never answers it with "Email address is required" (see also server/controllers/applications.controller.ts:143-145) |
| TrackPage.LinkAloneFetchesNothing | client/src/pages/track.tsx:26-46 | a page opened from a link with `?ref=` alone fetches nothing until an e-mail is searched |
| TrackPage.SearchSendsTrimmed | client/src/pages/track.tsx:39-54 | the lookup sends the trimmed reference and the trimmed e-mail |
| TrackPage.DecisionMarker | client/src/pages/track.tsx:291-296 | the decision marker is green iff the status is `APPROVED` or `ISSUED`, red iff `REJECTED`, muted otherwise |
| TrackPage.DecisionTitle | client/src/pages/track.tsx:299-300 | the decision title agrees with the marker: approved/issued for green, rejected for red, "Décision Finale" for muted |
| TrackPage.TimelineMonotone | client/src/pages/track.tsx:275-296 | the review stage is marked iff the status is `UNDER_REVIEW`, `APPROVED`, `ISSUED`, `REJECTED` or `NEED_INFO`, and a marked decision implies a marked review |
| TrackPage.ResultSectionsExclusive | client/src/pages/track.tsx:221-244 | at most one of the download button, the refusal reason and the administrator's notes is on the card |
| TrackPage.DownloadShown | client/src/pages/track.tsx:221 | the download button is drawn iff the status is `ISSUED` |
| TrackPage.RejectionShown | client/src/pages/track.tsx:232-235 | the refusal reason is drawn iff the status is `REJECTED` and a non-empty reason is stored |
| TrackPage.NotesShown | client/src/pages/track.tsx:239-242 | the administrator's notes are drawn iff the status is `NEED_INFO` and non-empty notes are stored |
| TrackPage.HiddenDownloadIsRefused | client/src/pages/track.tsx:221 | where the download button is not drawn, the PDF endpoint refuses the application with 404 (see also server/controllers/visa.controller.ts:9-12) |
| VerifyPage.Open | client/src/pages/verify.tsx:34-39 | a truthy route code fills the input and is submitted unchanged; without one nothing is submitted |
| VerifyPage.Type | client/src/pages/verify.tsx:74 | typed text is kept upper-cased: same length, no lower-case letter, equal to the input ignoring case |
| VerifyPage.HandleSearch | client/src/pages/verify.tsx:46-51 | a blank input is not submitted; otherwise its trim, upper-cased, is |
| VerifyPage.SubmittedCodeNormalised | client/src/pages/verify.tsx:46-51 | a code submitted from the input is non-empty, has no lower-case letter and no white space at either end, and enables the lookup |
| VerifyPage.ResubmitIsStable | client/src/pages/verify.tsx:46-51 | submitting a submitted code again sends the same code |
| VerifyPage.UpperOfSameLower | client/src/pages/verify.tsx:49 | a character equal ignoring case to one that is not a lower-case letter upper-cases to it |
| VerifyPage.TypedCodeFindsGenerated | client/src/pages/verify.tsx:46-51 | whatever the case and surrounding white space of what is typed, the code submitted is the generated verification code it stands for (see also server/utils/helpers.ts:75-77) |
| VerifyPage.RouteCodeNotNormalised | client/src/pages/verify.tsx:34-51 | a route code with a lower-case letter is sent as it is, while the same code typed in is sent differently, upper-cased |
| VerifyPage.MaskPassport | client/src/pages/verify.tsx:169 | the passport is shown as its first three characters, four stars and its last two; only the stars without a passport number |
| VerifyPage.MaskHidesMiddle | client/src/pages/verify.tsx:169 | two passport numbers of five or more characters that share their first three and last two characters look the same |
| VerifyPage.ShortPassportShown | client/src/pages/verify.tsx:169 | a five-character passport number is shown in full, with the stars inside |
| VerifyPage.BannerOf | client/src/pages/verify.tsx:121-136 | the banner is "valid" iff the server's `isValid` flag is set |
| VerifyPage.BannerIgnoresRows | client/src/pages/verify.tsx:121-136 | two answers with the same flag show the same banner, whatever their visa and application rows |
| Digits.DigitValue | server/utils/helpers.ts:76 | a digit of a base is worth less than the base |
| Digits.DigitCharValue | server/utils/helpers.ts:76 | the character written for a digit value is a digit of the base and reads back as that value |
| Digits.ToRadix | server/utils/helpers.ts:76 | `n.toString(radix)` writes at least one digit of the base, with no leading zero |
| Digits.RadixRoundTrip | server/utils/helpers.ts:76 | the digits `toString(radix)` writes read back as the number |
| Digits.ToRadixInjective | server/utils/helpers.ts:76 | different numbers are written differently |
| Digits.NatToDecimal | server/utils/helpers.ts:71 | `String(n)` of a non-negative number is decimal digits without a leading zero |
| Digits.DecimalLength | server/utils/helpers.ts:17-18 | a number below `10^k` is written with at most `k` digits |
| Digits.IntToDecimal | server/utils/helpers.ts:71 | `String(i)` reads back as `i`, with a minus sign before the digits of a negative number (see also server/controllers/applications.controller.ts:34) |
| Digits.Repeat | server/controllers/applications.controller.ts:34 | the padding is `n` copies of the pad character |
| Digits.PadStart | server/controllers/applications.controller.ts:34 | `padStart(width, c)` prefixes copies of `c` up to the width and never truncates a longer text (see also server/utils/helpers.ts:71) |
| Digits.LeadingZerosValue | server/controllers/applications.controller.ts:34 | leading zeros do not change the number a digit string denotes |
| Digits.ZeroPad | server/controllers/applications.controller.ts:34 | `String(n).padStart(width, "0")` is all digits, at least the width long, and still denotes `n` (see also server/utils/helpers.ts:71) |
| Digits.DigitsHaveNoDash | server/controllers/applications.controller.ts:35 | a digit string contains no `-`, so the fields of a number stay apart |
| Helpers.GenerateVisaNumber | server/utils/helpers.ts:70-73 | a visa number is `E-VVL/DGM/DG/CAB/` followed by at least seven characters |
| Helpers.VisaNumberRoundTrip | server/utils/helpers.ts:70-73 | after the prefix comes the sequence padded with zeros to seven digits, which reads back as the sequence; below ten million the number has exactly 24 characters, above it the digits are not truncated |
| Helpers.VisaNumberInjective | server/utils/helpers.ts:70-73 | distinct non-negative sequences give distinct visa numbers |
| Helpers.DayMonthYearFields | server/utils/helpers.ts:20 | the day, month and year sit at fixed positions of a `DD-MM-YYYY` text, between its two dashes |
| Helpers.FormatDateDDMMYYYY | server/utils/helpers.ts:16-21 | the text has a `-` after the two-digit day and after the two-digit month, and for years from 0 on it reads back as the same day |
| Helpers.FormatDateRoundTrip | server/utils/helpers.ts:16-21 | `formatDateDDMMYYYY` writes a two-digit day, a two-digit month counted from 1 and the full year, which read back as the same day |
| Helpers.SafeUpper | server/utils/helpers.ts:23-25 | `null` or `undefined` become `""`; any other text comes back with no lower-case letter and no white space at either end, and is empty iff the input is blank |
| Helpers.SafeUpperIdempotent | server/utils/helpers.ts:23-25 | `safeUpper` of its own result changes nothing |
| Helpers.GenerateVerificationCode | server/utils/helpers.ts:75-77 | a verification code starts with `VFY-`, has no lower-case letter, and has at most four random characters after the clock |
| Helpers.RadixDigitsLowerCase | server/utils/helpers.ts:76 | base-36 digits as JavaScript writes them contain no capital letter and no `-` |
| Helpers.VerificationCodeFields | server/utils/helpers.ts:75-77 | a verification code splits at `-` into `VFY`, the clock in upper-case base 36, which reads back as the clock, and the first four random digits upper-cased |
| Helpers.DashFreeUpper | server/utils/helpers.ts:76 | upper-casing a text without `-` gives a text without `-` |
| Helpers.CodeSplit | server/utils/helpers.ts:76 | `VFY-<time>-<random>` splits at `-` into exactly its three fields when neither field has a `-` |
| EnvFile.ParseLine | server/env.ts:11-17 | a line without `=` assigns nothing; otherwise the key is the trimmed text before the first `=` and the value the rest, `=` kept, trimmed, with every double quote removed; an empty key or one starting with `#` assigns nothing |
| EnvFile.ParseLineRoundTrip | server/env.ts:11-16 | a line `KEY=VALUE` whose key and value survive trimming and unquoting reads back as that key and value |
| EnvFile.ParseLines | server/env.ts:10 | each line of the file is read on its own |
| EnvFile.LoadLines | server/env.ts:10-19 | every assigning line sets its key, a later line for the same key wins over an earlier one and over the existing value, and every variable no line assigns keeps its value |
| EnvFile.LoadEnv | server/env.ts:4-24 | with `DATABASE_URL` already set, or without a readable `.env`, the environment is unchanged; otherwise the lines of the file, split at newlines, are loaded |
| Records.AssignAll | shared/validation.ts:197-200 | assigning pairs in order: the keys are the old ones and the assigned ones, each assigned key holds its last pair's value, and an unassigned key keeps its value (see also server/env.ts:16) |
| Records.AssignKeys | shared/validation.ts:197-200 | a key is assigned by the pairs iff by the earlier pairs or by the last one |
| Records.AssignLastWins | shared/validation.ts:199 | after one more assignment, every key holds the value of its last pair |
| Records.AssignUntouched | shared/validation.ts:197-200 | a key that no pair assigns keeps its value |
| Records.Defined | server/env.ts:12-17 | the assignments a loop makes are its assigning items in order: a key is assigned iff some item assigns it, and each item that is last for its key is there as the last pair for it |
| Records.DefinedKeys | server/env.ts:12-17 | keeping the assigning items keeps exactly the assigned keys |
| Records.DefinedLast | server/env.ts:12-17 | an item that is last for its key stays last among the kept items |
| Records.AssignSome | server/env.ts:10-19 | a loop that assigns only some of its items: every assigned key holds the value of its last assigning item, and every other key keeps its value |
| Schema.ParseStatus | shared/schema.ts:11-23 | a status column text names a status exactly when it is one of the nine declared names, and then it is that status's name |
| Schema.StatusesComplete | shared/schema.ts:11-23 | the declared list holds nine statuses, each once, with distinct names that parse back to their status |
| Schema.ParsePaymentStatus | shared/schema.ts:25 | a payment status text names a payment status exactly when it is one of the five declared names |
| Schema.PaymentStatusesComplete | shared/schema.ts:25 | the declared list holds five payment statuses, each once, whose names parse back to them |
| Schema.StatusLabelsDistinct | shared/schema.ts:220-230 | no two statuses share a French or an English label, so a label names its status |
| Schema.VisaTypeLabel | shared/schema.ts:212-217 | the label table describes exactly the four declared visa types, each with a positive stay and price (see also shared/schema.ts:7) |
| Schema.VisaTypePricesFollowDuration | shared/schema.ts:212-217 | among the described visa types, a stay no longer than another's never costs more, and conversely |
| RequestSchemas.ParseDraft | server/utils/schemas.ts:3-9 | a draft body parses exactly when it has a first and a last name of at least one character, an e-mail address and a nationality of at least two characters; the parsed draft carries those values and the optional visa type unchanged |
| RequestSchemas.PersonalInfoMakesDraft | server/utils/schemas.ts:3-9 | whatever the wizard's personal-information step accepts, sent as a draft, parses to the same names, e-mail and nationality |
| RequestSchemas.ParseAdminStatus | server/utils/schemas.ts:11-14 | a decision body parses exactly when its status names one of the five statuses an administrator may set; the notes pass through whether absent, `null` or text |
| RequestSchemas.AdminStatusesExactly | server/utils/schemas.ts:12 | an administrator may set every status except `DRAFT`, `SUBMITTED`, `EXPIRED` and `REVOKED` |
| RequestSchemas.StatusNames | server/utils/schemas.ts:56 | the enumeration of the update schema lists the status names in order |
| RequestSchemas.PaymentStatusNames | server/utils/schemas.ts:57 | the enumeration of the update schema lists the payment status names in order |
| RequestSchemas.EmptyUpdateAccepted | server/utils/schemas.ts:17-58 | every field of an update is optional, so the empty body is accepted |
| RequestSchemas.SingleFieldBody | server/utils/schemas.ts:55-57 | a body carrying only a status, or only a payment status, is accepted exactly when the value is in that field's enumeration |
| RequestSchemas.UpdateStatusRule | server/utils/schemas.ts:56 | an update may set any status but `EXPIRED` and `REVOKED` |
| RequestSchemas.UpdatePaymentStatusRule | server/utils/schemas.ts:57 | an update may set the payment status to `PENDING`, `PAID` or `FAILED` only |
| RequestSchemas.UpdateAgreesWithForm | server/utils/schemas.ts:28-44 | an update checks a passport number and a purpose of visit exactly as the application form does, and accepts every phone number and institution code the form accepts |
| Storage.First | server/storage.ts:108-111 | `result[0]` of a filtered query: nothing exactly when no row matches, otherwise a matching row with no matching row before it |
| Storage.GetUserByUsername | server/storage.ts:83-86 | the user found has exactly that username, and none is found only when no user has it |
| Storage.GetVisaProducts | server/storage.ts:94-96 | exactly the active visa products |
| Storage.ActiveProducts | server/storage.ts:95 | keeping the active products keeps every active one and nothing else, never adding rows |
| Storage.FindProduct | server/controllers/applications.controller.ts:84-85 | the product found has the visa type asked for, and none is found only when no product has it |
| Storage.GetApplication | server/storage.ts:108-111 | the row found has the id asked for, and none is found only when no row has it |
| Storage.GetApplicationUnique | server/storage.ts:108-111 | in a store whose ids are unique, looking up a stored row's id finds that row |
| Storage.GetApplicationByNumber | server/storage.ts:113-117 | the row found has the number asked for up to case, and none is found only when no row's number matches up to case |
| Storage.ByNumberIgnoresCase | server/storage.ts:114-115 | two numbers equal up to case find the same row |
| Storage.FirstAgrees | server/storage.ts:115-116 | two conditions that agree on every row find the same first row |
| Storage.MaxSequence | server/storage.ts:121 | `MAX(sequence_number)` is `NULL` exactly for an empty table, and otherwise a stored sequence at least every other |
| Storage.NextSequence | server/storage.ts:119-123 | the next sequence is 1 for an empty table and is above every stored sequence; it is 1 or one more than a stored sequence |
| Storage.FallbackApplicationNumber | server/storage.ts:138-143 | a fallback number splits at `-` into `eVisa`, `XXX`, the last two digits of the year and the sequence zero-padded to six digits, which reads back as the sequence |
| Storage.ChosenSequence | server/storage.ts:130-135 | a truthy sequence from the caller is kept; a missing or zero one is replaced by the next sequence |
| Storage.CreateApplication | server/storage.ts:125-152 | the insert succeeds exactly when the id and the number are new; the row is appended with the chosen sequence, the caller's or the fallback number, status `DRAFT` by default, payment status `INITIATED`, `submittedAt` set to now iff it is inserted as `SUBMITTED`, and the caller's other columns (see also shared/schema.ts:50-52) |
| Storage.AppendKeepsUnique | shared/schema.ts:50 | appending a row whose key is new keeps the key unique (see also shared/schema.ts:114-115) |
| Storage.CreateApplicationKeepsValid | shared/schema.ts:49-50 | creating an application keeps ids and application numbers unique |
| Storage.CreatedSequenceIsFresh | server/storage.ts:133-135 | a row created without a sequence gets one above every stored sequence |
| Storage.PatchColumns | server/storage.ts:157 | a nullable column named in the body takes its value or `NULL`, and every other column keeps its value |
| Storage.ApplyPatch | server/storage.ts:154-161 | the updated row takes each key the body carries, keeps every other column, id and creation time, and gets `updatedAt` now |
| Storage.EmptyPatchTouchesOnlyUpdatedAt | server/storage.ts:157 | an empty body changes nothing but `updatedAt` |
| Storage.ApplyPatchIdempotent | server/storage.ts:157 | applying the same body twice at the same instant is applying it once |
| Storage.PatchRows | server/storage.ts:156-158 | every row with that id gets the patch and every other row is unchanged, in place |
| Storage.UpdateApplication | server/storage.ts:154-161 | without a row of that id nothing is written and the answer is empty; otherwise the update fails exactly when it would give a number another row holds, and else patches the row and answers the updated row (see also shared/schema.ts:50) |
| Storage.UpdateApplicationKeepsValid | shared/schema.ts:49-50 | an update keeps ids and application numbers unique |
| Storage.GetVisaByApplicationId | server/storage.ts:174-177 | the visa found belongs to that application, and none is found only when no visa does |
| Storage.GetVisaByVerificationCode | server/storage.ts:169-172 | the visa found has exactly that code, and none is found only when no visa has it |
| Storage.CreateVisaAsWritten | server/storage.ts:179-180 | the written `createVisa` always fails, because its first statement calls the number generator without a sequence (see also server/storage.ts:66-69) |
| Storage.CreateVisaAsWrittenNeverStores | server/storage.ts:179-186 | even a request carrying every required field stores no visa |
| Storage.CreateVisa | server/storage.ts:179-199 | the visa is stored exactly when the application id, the two dates and a non-zero stay are given, a number and a code are given, and the id, number and code are new; the row holds the caller's values and `issuedAt` now (see also shared/schema.ts:114-121) |
| Storage.CreateVisaKeepsValid | shared/schema.ts:113-115 | creating a visa keeps visa ids, numbers and verification codes unique |
| Storage.GetPaymentByApplicationId | server/storage.ts:207-210 | the payment found belongs to that application, and none is found only when no payment does |
| Storage.CreatePayment | server/storage.ts:212-215 | the payment is appended with the caller's values and `createdAt` now, failing only on a repeated id |
| Storage.ApplyPaymentPatch | server/storage.ts:218 | a payment takes the status, transaction id and payment time the body carries and keeps everything else |
| Storage.UpdatePayment | server/storage.ts:217-220 | every payment with that id is patched in place and no other changes; the answer is empty exactly when no payment has that id |
| Storage.CreateAuditLog | server/storage.ts:223-226 | the entry is appended as given with `timestamp` now, failing only on a repeated id |
| Storage.InsertByTime | server/storage.ts:229 | placing an entry into a newest-first list keeps it newest first and adds exactly that entry |
| Storage.PrependNewest | server/storage.ts:229 | an entry at least as new as the head of a newest-first list can go in front |
| Storage.SortNewestFirst | server/storage.ts:229 | the entries reordered newest first, none added or lost |
| Storage.GetAuditLogs | server/storage.ts:228-243 | every entry, newest first, whatever filter is passed: the filter arguments are never applied |
| Storage.CountStatus | server/storage.ts:250-254 | a per-status count is the number of row positions holding that status, so at most the row count, and zero exactly when no row has that status |
| Storage.CountsPartition | server/storage.ts:247-255 | the nine per-status counts add up to the row count |
| Storage.GetStats | server/storage.ts:246-256 | the total is the row count; `submitted`, `underReview`, `approved`, `rejected` and `issued` are each the number of rows with exactly that status; the five counts plus the uncounted drafts, information requests, expired and revoked rows make up the total |
| PdfService.VisaTypeLabel | server/services/pdf.service.ts:115-133 | the printed visa type is `SPECIFIQUE` exactly for the specific visa type and `ORDINAIRE` for every other type |
| PdfService.StayDays | server/services/pdf.service.ts:126 | the printed stay is 30 days exactly for the specific visa type and 7 days for every other |
| PdfService.LabelAndStayAgree | server/services/pdf.service.ts:115-133 | the printed label and the printed stay always agree on whether the visa is the specific type |
| PdfService.GenderLabel | server/services/pdf.service.ts:120-157 | `male` and `female` print in French; any other value prints as stored, and a missing one as the empty text |
| PdfService.SponsorFullName | server/services/pdf.service.ts:144-146 | the sponsor prints as first and last name joined by a space when both are non-empty, and as the empty text otherwise |
| PdfService.FrenchDate | server/services/pdf.service.ts:150-155 | a missing or empty date prints as the empty text, any other in the French date format |
| PdfService.PhotoMime | server/services/pdf.service.ts:61-62 | an uploaded photo is PNG exactly when its extension is `.png` in any case, and JPEG otherwise |
| PdfService.DataUrl | server/services/pdf.service.ts:22-26 | an embedded image is the `data:<type>;base64,` prefix followed by the file's contents, unchanged |
| PdfService.Embed | server/services/pdf.service.ts:22-112 | an image is embedded exactly when its file can be read, as the data URL of its contents |
| PdfService.PhotoUrl | server/services/pdf.service.ts:54-92 | the uploaded photo, typed by its extension, when the row names one and it can be read; otherwise the default photo as JPEG, or none |
| PdfService.DefaultPhotoFallback | server/services/pdf.service.ts:73-81 | whenever the default photo can be read, the document carries a photo |
| PdfService.PhotoMimeOfUpload | server/services/pdf.service.ts:55-62 | a photo stored under its upload name is typed PNG exactly when the name it was uploaded under ends in `.png`, in any case (see also server/utils/upload.ts:26-34) |
| PdfService.TemplateDataOf | server/services/pdf.service.ts:128-176 | the visa number shown is the application number, or `N/A` without one; label, stay, sponsor and gender follow their rules; the address falls back to `KINSHASA / GOMBE`; nobody is ever listed as accompanying |
| PdfService.GenerateVisaPdf | server/services/pdf.service.ts:33-214 | the document is produced exactly when the template is read and the renderer works; every failure is the single error "Failed to generate PDF" |
| PdfService.ImagesNeverFail | server/services/pdf.service.ts:51-112 | whether any photo or logo can be read never decides whether the document is produced |
| VisaController.OnError | server/controllers/visa.controller.ts:24-27 | an error is answered with a 500 "Error generating PDF" exactly when no header has been sent yet |
| VisaController.Disposition | server/controllers/visa.controller.ts:22 | the PDF is served inline under the file name `e-Visa-<application number>.pdf` |
| VisaController.DownloadVisaPdf | server/controllers/visa.controller.ts:5-28 | an unknown or not `ISSUED` application gets 404 "Visa not found or not issued"; a PDF is only served for a stored application with a visa row, inline as `application/pdf` under `e-Visa-<number>.pdf`; some answer is always sent |
| VisaController.DownloadIff | server/controllers/visa.controller.ts:9-23 | the PDF is served exactly when the application exists, is `ISSUED`, has a visa row and the document can be produced |
| VisaController.IssuedWithoutVisa | server/controllers/visa.controller.ts:14-15 | an issued application without a visa row gets 404 "Visa record not found" |
| VisaController.RenderFailureIs500 | server/controllers/visa.controller.ts:18-27 | a document that cannot be produced is answered with a 500, never dropped |
| VisaController.PrintedStayIgnoresVisa | server/services/pdf.service.ts:126 | the stay printed on the visa does not come from the stored visa row: an ordinary visa stored for 30 days prints 7 (see also server/controllers/admin.controller.ts:89-93) |
| Upload.FileFilter | server/utils/upload.ts:38-46 | a file is accepted exactly when its MIME type is JPEG (either spelling), PNG or PDF; every other type is refused with the one error message |
| Upload.FileFilterExamples | server/utils/upload.ts:39-44 | `image/jpg` and `application/pdf` pass; `image/gif` and a Word document are refused |
| Upload.StripTrailingSlashes | server/utils/upload.ts:28 | a path loses exactly its trailing slashes, and nothing else |
| Upload.SegmentExt | server/utils/upload.ts:28 | the extension of a segment is empty or a `.` followed by no other `.`, and ends the segment; it is empty without a `.`, for a leading-dot name like `.bashrc` and for `..`, and otherwise not |
| Upload.ExtName | server/utils/upload.ts:28 | `path.extname` is the extension of the last segment of the path, and holds no `/` |
| Upload.Destination | server/utils/upload.ts:13-24 | an application's files go into its own folder under the working directory's `server/uploads` |
| Upload.Filename | server/utils/upload.ts:25-34 | the stored name starts with the form field's name, and holds no `/` when the field has none |
| Upload.BeforeDotOfName | server/utils/upload.ts:31 | a stored name gives back its field when the field has no `.` |
| Upload.FilenameCollisions | server/utils/upload.ts:30-31 | two uploads for the same field with the same extension get the same name, so the second replaces the first; fields without a `.` never share a name |
| Upload.BasenameAfterDir | server/utils/upload.ts:17-28 | the last segment of a file inside a folder is the file's name |
| Upload.ExtNameAfterDir | server/utils/upload.ts:17-28 | the extension of a file inside a folder is that of its name |
| Upload.SegmentExtOfName | server/utils/upload.ts:31 | a stored name made of a field without `.` and an extension has that extension |
| Upload.StoredExtension | server/utils/upload.ts:25-34 | a stored file has the extension of the name it was uploaded under |
| Upload.RelativeFilePath | server/utils/upload.ts:58-60 | a path under the working directory loses that prefix; a path not containing it is unchanged |
| Upload.PrefixRemoved | server/utils/upload.ts:59 | removing the working-directory prefix from a path that starts with it leaves the rest |
| Upload.StoredNameIsRelative | server/utils/upload.ts:13-60 | any file stored in an application's folder is kept as `server/uploads/<id>/<name>` |
| Upload.StoredPathIsRelative | server/utils/upload.ts:13-60 | an uploaded file is kept as `server/uploads/<id>/<field><ext>` |
| Text.ToUpper | server/utils/helpers.ts:24 | upper-casing keeps the length of the text |
| Text.UpperHasNoLowerCase | client/src/pages/verify.tsx:49-74 | upper-cased text holds no lower-case letter |
| Text.ToUpperIdempotent | server/utils/helpers.ts:24 | upper-casing twice is upper-casing once |
| Text.UpperKeepsSpace | client/src/pages/verify.tsx:49 | upper-casing neither creates nor removes white space |
| Text.LowerUndoesUpper | client/src/pages/admin/dashboard.tsx:136-138 | lower-casing undoes upper-casing on text without capitals |
| Text.LowerEqualityIsEquivalence | server/storage.ts:115 | equality up to case is reflexive, symmetric and transitive |
| Text.TrimStart | server/env.ts:13 | trimming the start removes exactly the leading white space |
| Text.TrimEnd | server/env.ts:13 | trimming the end removes exactly the trailing white space |
| Text.Trim | server/env.ts:13-14 | the trim is empty exactly for blank text, and otherwise starts and ends with a non-space (see also client/src/pages/track.tsx:50) |
| Text.TrimIdempotent | client/src/pages/track.tsx:50-52 | trimming twice is trimming once |
| Text.TrimTrimmed | client/src/pages/verify.tsx:48-49 | text without white space at either end is its own trim |
| Text.FindFrom | server/utils/upload.ts:59 | the first occurrence of the pattern at or after the start position, or none when there is none |
| Text.ReplaceFirst | server/utils/upload.ts:59 | `replace` with a text pattern changes only the first occurrence, and leaves text without one unchanged |
| Text.IndexOfChar | server/env.ts:11 | the first position of the character, or none exactly when it does not occur |
| Text.LastIndexOfChar | server/utils/upload.ts:28 | the last position of the character, or none exactly when it does not occur |
| Text.Split | server/env.ts:10-11 | a split has at least one piece and no piece holds the separator |
| Text.JoinSplit | server/env.ts:14 | joining the pieces of a split with the separator gives the text back |
| Text.SplitAtFirst | server/env.ts:11-14 | a split has two pieces or more exactly when the separator occurs; then the first piece is the text before its first occurrence and the other pieces, joined again, are the text after it |
| Text.SplitWithout | server/env.ts:11-12 | text without the separator splits into itself alone |
| Text.SplitAfter | server/env.ts:11 | splitting at a separator whose first occurrence follows `x` gives `x` and the split of the rest |
| Text.SplitBefore | server/env.ts:11 | splitting at a separator whose last occurrence precedes `y` gives the split of the text before and `y` |
| Text.IndexInPrefix | server/env.ts:11 | a character that occurs in a prefix is first found inside that prefix |
| Text.SplitFour | server/storage.ts:142 | four separator-free pieces joined by the separator split back into those four pieces |
| Text.RemoveAll | server/env.ts:14 | removing every occurrence of a character keeps every other character and no occurrence of that one |
| Text.Take | client/src/pages/verify.tsx:169 | the first `n` characters, or the whole text when shorter |
| Text.TakeLast | client/src/pages/verify.tsx:169 | the last `n` characters, or the whole text when shorter (see also server/storage.ts:140) |
| Text.OrEmpty | server/services/pdf.service.ts:134-164 | the fallback to the empty text: empty exactly when the value is missing or empty, the value otherwise |

## Left out

- Sending e-mail (`server/services/email.service.ts`) is left out. A new draft is modelled as if its confirmation e-mail were always sent.
- The two-second `setTimeout` that marks a new payment as paid is modelled as a separate step, `ApplicationsController.ConfirmPayment`. Its timing, and its interleaving with other requests, are not modelled.
- Concurrency is not modelled. Two drafts that read the same `MAX(sequence_number)` at the same time would both get it. The model runs requests one after another, so the `UNIQUE` number check is all that separates them.
- The following are not modelled: the database driver, Express routing (`server/routes.ts`, `server/routes/`), multer's disk writes, its 5 MB size limit and folder creation, the headless browser, the Handlebars compiler, base64 encoding and the seed script.
- `path.join` and `path.resolve` are modelled as joining with `/`. Their normalisation of `.` and `..` segments is not modelled.
- `toLocaleDateString('fr-FR')` is a parameter. The issue date printed on the PDF is therefore an opaque text.
- Case mapping covers ASCII letters only. `toUpperCase` and `toLowerCase` on other letters are not modelled.
- Date texts are read in the `YYYY-MM-DD` form only, as V8 reads it: month 1 to 12, day 1 to 31, a day past the end of its month running on into the next. `new Date(text)` on other forms is not modelled.
- The server's time zone is taken to be UTC.
- Lookups in the object literals `visaTypeLabels` and `genderLabels` are modelled as lookups of their own keys only. A key inherited from `Object.prototype`, such as `toString`, is not modelled.
- The administrator listing (`getApplications`, ordered by `submittedAt`), `getDashboardStats`, `getApplicationById`, `getUser`, `createUser`, `getVisa`, `getPayment` and `createVisaProduct` are left out. Each reads or writes one table with no rule of its own. `getStats`, which `getDashboardStats` returns, is modelled.
- The presentation components are left out: header, footer, layouts, status badge, step indicator, home page and login page.
- The personal-information, travel-information and visa-type wizard steps are left out as components. Their schemas are modelled in `Schema`.
- The verification page's request goes to an `/api/verify` endpoint that is not part of this model. `VerifyPage` models only the page side.
- The wizard posts the finished form to `/api/applications`, while the draft endpoint is `/api/applications/draft`. `ApplyWizard` models the form's own rules and does not model that request.
- The four security images of the PDF (barcode, QR code, stamp, signature) are always `null` and are not modelled.
- The `applications` row follows the columns the server code reads and writes, not the table declaration in `shared/schema.ts`. That declaration has no `sequenceNumber`, `photoPath` or `passportCopyPath` column, which `server/storage.ts` and the upload route use. The `NOT NULL` constraints of `shared/schema.ts` (phone, passport, travel and address columns) are not enforced: any such column may be absent. The fallbacks for an absent column follow from this choice: `AdminController.ValidityStart` starting the visa today, and the empty texts that `Text.OrEmpty` puts in a payment or on the PDF.
- ApplicationsController.UpdateApplicationReply: the body is modelled as a typed patch of the known columns. The handler passes the unchecked request body to `.set()`. So the model cannot express a body that renames the `id`, writes a status text outside the enumeration (the column is plain text), writes `null` into a `NOT NULL` column, or sends a timestamp as a string. Each of the last two makes the database refuse the update with a 500.
- Lengths are counted in characters (Unicode scalar values). zod's `min` and `max`, `slice` and `padStart` count UTF-16 code units, so a text holding characters outside the Basic Multilingual Plane has a different length in the program.
- TrackPage.Lookup: the reference is put into the request path as typed. The page does not pass it through `encodeURIComponent`, so a reference holding `/`, `?` or `#` reaches a different URL; the model does not represent URLs and keeps the reference whole.
- Text.ToUpper: states only the length. What the text becomes is stated by `Text.UpperHasNoLowerCase`, `Text.ToUpperIdempotent` and `Text.UpperKeepsSpace`.
- PdfService.TemplateDataOf: states the fields that follow a rule: numbers, labels, stay, sponsor, address, gender, photo and one logo. The remaining fields copy a column, or the empty text, and are not repeated in its contract.
- Storage.CreateVisaAsWritten: states only that it fails, because the source fails before any other effect.

## Findings

| source | as written | input that shows it | evidently intended | confidence | as-written member | corrected member |
|---|---|---|---|---|---|---|
| server/storage.ts:180 | `createVisa` calls its local `generateVisaNumber()` without the sequence argument, and `sequenceNumber.toString()` (line 68) throws on `undefined` | any approval of an application with all visa fields present | store the visa number and verification code the caller computed and passes in | high, not executed | Storage.CreateVisaAsWritten, Storage.CreateVisaAsWrittenNeverStores, AdminController.ApprovalAsWrittenFails | Storage.CreateVisa, AdminController.Approval |
| shared/validation.ts:42-44 | the arrival refine compares UTC midnight of the arrival day with the current instant plus 24 hours | the next day's date, with the clock at any time after midnight | accept every arrival from tomorrow on | medium, not executed | Validation.ArrivalDateValidAsWritten, Validation.ArrivalDateIssuesAsWritten, Validation.ArrivalTomorrowRefused, Validation.TomorrowArrivalRefused | Validation.ArrivalDayValid, Validation.ArrivalDateIssues, Validation.ArrivalRulesAgree, Validation.ArrivalIssuesAgree |
| client/src/pages/apply.tsx:91-92 | the page reads `visaTypeLabels[formData.visaType].price` on every render, while its default type (line 46) and both selector choices (lines 205-206) are `VOLANT_ORDINAIRE` and `VOLANT_SPECIFIQUE`, which the table (shared/schema.ts:212-217) does not describe | the first render, with the default `VOLANT_ORDINAIRE` | show the price of the chosen visa type from a table that describes every offered type | high, not executed | ApplyWizard.InitialPriceMissing, ApplyWizard.OfferedRunsNeverRender | ApplyWizard.LabelledRunsRender |

The schema, `Validation.ValidateApplication`, keeps the arrival refine as written, so the model refuses what the portal refuses. The calendar-day rule stands beside it, and `Validation.ArrivalIssuesAgree` ties the two together.
