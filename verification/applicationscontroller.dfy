/**
 * The public application endpoints of `server/controllers/applications.controller.ts`:
 * reading an application, creating a draft, updating (and so submitting) it,
 * and tracking it by reference number and e-mail. As for the administrator
 * endpoints, each is a function from the store and the request to the next
 * store and the reply; the clock, the generated ids and the country-code
 * lookup are parameters.
 */
module ApplicationsController {
  import opened Wrappers
  import opened Text
  import opened Digits
  import opened Calendar
  import opened Schema
  import opened Storage
  import opened RequestSchemas
  import opened Http

  /** What one request depends on besides the store and the body. */
  datatype AppEnv = AppEnv(nowMs: nat, applicationId: string, paymentId: string, auditId: string)

  // getApplication

  /** `getApplication`: the row with that id, or 404. */
  function GetApplicationReply(st: Store, id: string): (r: Reply<Application>)
    ensures r.Json? <==> IdTaken(st, id)
    ensures r.Json? ==> r.status == 200 && r.value.id == id && r.value in st.applications
    ensures r.ErrorJson? ==> r == ErrorJson(404, "Demande introuvable")
  {
    match GetApplication(st, id)
    case None => ErrorJson(404, "Demande introuvable")
    case Some(a) => Json(200, a)
  }

  // createDraftApplication

  /** The calendar year of an instant, in UTC. */
  function YearOf(nowMs: int): int {
    CivilFromDays(DayOf(nowMs)).year
  }

  /**
   * `eVisa-<ISO3>-<last two digits of the year>-<sequence padded to five digits>`.
   * For a country code without `-`, the number splits at `-` into its four
   * fields, and its last field reads back as the sequence.
   */
  function DraftNumber(iso3: string, year: int, sequence: int): (r: string)
    ensures '-' !in iso3 && year >= 0 && sequence >= 0 ==>
      var parts := Split(r, '-');
      && parts == ["eVisa", iso3, TakeLast(NatToDecimal(year), 2), ZeroPad(sequence, 5)]
      && AllDigits(parts[3]) && DecimalValue(parts[3]) == sequence
      && |parts[3]| >= 5
  {
    ApplicationNumber(iso3, year, sequence, 5)
  }

  /** Different sequences give different draft numbers. */
  lemma DraftNumberInjective(iso3: string, year: nat, m: nat, n: nat)
    requires '-' !in iso3
    ensures DraftNumber(iso3, year, m) == DraftNumber(iso3, year, n) ==> m == n
  {
  }

  const DefaultVisaType: string := "VOLANT_ORDINAIRE"

  /** `body.visaType || "VOLANT_ORDINAIRE"`: an absent or empty type falls back. */
  function DraftVisaType(visaType: Option<string>): (t: string)
    ensures Present(visaType) ==> t == visaType.value
    ensures !Present(visaType) ==> t == DefaultVisaType
    ensures t != ""
  {
    if Present(visaType) then visaType.value else DefaultVisaType
  }

  /** The row `createDraftApplication` asks `createApplication` to insert. */
  function DraftInsert(d: NewDraft, number: string, sequence: int): (ins: ApplicationInsert)
    ensures ins.status == Some(Draft)
    ensures ins.applicationNumber == Some(number) && ins.sequenceNumber == Some(sequence)
    ensures ins.visaType == DraftVisaType(d.visaType)
    ensures ins.firstName == d.firstName && ins.lastName == d.lastName
    ensures ins.email == d.email && ins.nationality == d.nationality
    ensures ins.columns == map[]
  {
    ApplicationInsert(DraftVisaType(d.visaType), Some(Draft), d.firstName, d.lastName, d.email,
                      d.nationality, Some(number), Some(sequence), map[])
  }

  /** The audit entry of a new draft, signed with the applicant's name. */
  function DraftAudit(d: NewDraft, applicationId: string, number: string, sequence: int): (e: AuditEntry)
    ensures e.action == "APPLICATION_DRAFT_CREATED" && e.entityType == "application"
    ensures e.entityId == Some(applicationId) && e.actorId.None?
    ensures e.actorName == Some(d.firstName + " " + d.lastName)
    ensures e.metadata == DraftCreated(number, sequence)
  {
    AuditEntry(None, Some(d.firstName + " " + d.lastName), "APPLICATION_DRAFT_CREATED", "application",
               Some(applicationId), DraftCreated(number, sequence))
  }

  /**
   * `createDraftApplication`: a body the draft schema refuses is a 500; the
   * draft is numbered with the next sequence, inserted as `DRAFT`, then
   * audited, and the answer is 201 with the new row. An insert that fails
   * leaves the store alone; a failing audit leaves the row inserted.
   * `iso3Of` is `getCountryISO3`; `isEmail` is zod's e-mail check.
   */
  function CreateDraftApplication(st: Store, body: DraftBody, isEmail: string -> bool, iso3Of: string -> string, env: AppEnv)
    : (r: (Store, Reply<Application>))
    ensures ParseDraft(body, isEmail).None? ==> r == (st, ErrorJson(500, InternalError))
    ensures r.1.ErrorJson? ==> r.1.status == 500 && r.0.payments == st.payments && r.0.visas == st.visas
    ensures r.1.Json? ==> r.1.status == 201 && r.1.value.status == Draft && r.1.value.id == env.applicationId
  {
    match ParseDraft(body, isEmail)
    case None => (st, ErrorJson(500, InternalError))
    case Some(d) =>
      var sequence := NextSequence(st);
      var number := DraftNumber(iso3Of(d.nationality), YearOf(env.nowMs), sequence);
      match CreateApplication(st, DraftInsert(d, number, sequence), env.applicationId, env.nowMs)
      case Failure(_) => (st, ErrorJson(500, InternalError))
      case Success((st1, a)) =>
        match CreateAuditLog(st1, DraftAudit(d, a.id, number, sequence), env.auditId, env.nowMs)
        case Failure(_) => (st1, ErrorJson(500, InternalError))
        case Success((st2, _)) => (st2, Json(201, a))
  }

  /**
   * A created draft is numbered `eVisa-<ISO3>-<YY>-<sequence>` with the next
   * sequence, and stores that same sequence; it is `DRAFT`, of the requested
   * visa type or `VOLANT_ORDINAIRE`, appended to the table, and audited.
   */
  lemma DraftRow(st: Store, body: DraftBody, isEmail: string -> bool, iso3Of: string -> string, env: AppEnv)
    ensures var r := CreateDraftApplication(st, body, isEmail, iso3Of, env);
      r.1.Json? ==>
        && ParseDraft(body, isEmail).Some?
        && var d := ParseDraft(body, isEmail).value;
        && var number := DraftNumber(iso3Of(d.nationality), YearOf(env.nowMs), NextSequence(st));
        && r.1.value.applicationNumber == number
        && r.1.value.sequenceNumber == NextSequence(st)
        && r.1.value.visaType == DraftVisaType(body.visaType)
        && r.1.value.paymentStatus == Some(Initiated) && r.1.value.submittedAt.None?
        && r.0.applications == st.applications + [r.1.value]
        && r.0.auditLogs == st.auditLogs + [AuditLog(env.auditId, None, Some(d.firstName + " " + d.lastName),
             "APPLICATION_DRAFT_CREATED", "application", Some(env.applicationId),
             DraftCreated(number, NextSequence(st)), env.nowMs)]
  {
  }

  /**
   * A draft is refused exactly when the schema refuses the body, the id or
   * the number is already taken, or the audit id is.
   */
  lemma DraftRefusedIff(st: Store, body: DraftBody, isEmail: string -> bool, iso3Of: string -> string, env: AppEnv)
    ensures var r := CreateDraftApplication(st, body, isEmail, iso3Of, env);
      r.1.Json? <==>
        && ParseDraft(body, isEmail).Some?
        && !IdTaken(st, env.applicationId)
        && !NumberTaken(st, DraftNumber(iso3Of(ParseDraft(body, isEmail).value.nationality), YearOf(env.nowMs), NextSequence(st)))
        && forall k :: 0 <= k < |st.auditLogs| ==> st.auditLogs[k].id != env.auditId
  {
    match ParseDraft(body, isEmail)
    case None =>
    case Some(d) =>
      var sequence := NextSequence(st);
      var number := DraftNumber(iso3Of(d.nationality), YearOf(env.nowMs), sequence);
      var ins := DraftInsert(d, number, sequence);
      assert Present(ins.applicationNumber) by {
        assert number[0] == 'e';
      }
      assert ChosenSequence(st, ins.sequenceNumber) == sequence;
      var c := CreateApplication(st, ins, env.applicationId, env.nowMs);
      assert c.Success? <==> !IdTaken(st, env.applicationId) && !NumberTaken(st, number);
      if c.Success? {
        assert c.value.0.auditLogs == st.auditLogs;
      }
  }

  // updateApplication

  /** The amount a submission charges: the product's price plus 5, or 255 without a product. */
  function SubmissionAmount(products: seq<VisaProduct>, visaType: string): (amount: int)
    ensures FindProduct(products, visaType).Some? ==> amount == FindProduct(products, visaType).value.price + 5
    ensures FindProduct(products, visaType).None? ==> amount == 255
  {
    match FindProduct(products, visaType)
    case Some(p) => p.price + 5
    case None => 255
  }

  /** The pending M-Pesa payment a submission opens. */
  function SubmissionPayment(a: Application, amount: int): (ins: PaymentInsert)
    ensures ins.applicationId == a.id && ins.amount == amount && ins.status == Pending
    ensures ins.phoneNumber == OrEmpty(Column(a, "phone"))
    ensures ins.transactionId.None? && ins.paidAt.None?
  {
    PaymentInsert(a.id, "MPESA", OrEmpty(Column(a, "phone")), amount, "USD", Pending, None, None)
  }

  /** The audit entry of a submission, naming the number the row had before the update. */
  function SubmissionAudit(id: string, updated: Application, previousNumber: string): (e: AuditEntry)
    ensures e.action == "APPLICATION_SUBMITTED" && e.entityId == Some(id)
    ensures e.metadata == SubmittedFrom(previousNumber)
  {
    AuditEntry(None, Some(updated.firstName + " " + updated.lastName), "APPLICATION_SUBMITTED", "application",
               Some(id), SubmittedFrom(previousNumber))
  }

  /** The body asks for `SUBMITTED` while the stored row is still a draft. */
  predicate IsSubmission(existing: Application, body: ApplicationPatch) {
    body.status == Some(Submitted) && existing.status == Draft
  }

  /**
   * The side effects of a submission, after the row is updated: a pending
   * payment when the application has none, then the audit entry.
   */
  function Submit(st: Store, id: string, existing: Application, updated: Application, env: AppEnv): (r: (Store, Reply<Application>))
    ensures r.1.Json? ==> r.1 == Json(200, updated)
    ensures r.1.ErrorJson? ==> r.1 == ErrorJson(500, InternalError)
    ensures r.0.applications == st.applications && r.0.visas == st.visas
  {
    var st1 :=
      if GetPaymentByApplicationId(st, id).Some? then Success(st)
      else
        match CreatePayment(st, SubmissionPayment(updated, SubmissionAmount(GetVisaProducts(st), updated.visaType)),
                            env.paymentId, env.nowMs)
        case Failure(e) => Failure(e)
        case Success((st', _)) => Success(st');
    match st1
    case Failure(_) => (st, ErrorJson(500, InternalError))
    case Success(st1) =>
      match CreateAuditLog(st1, SubmissionAudit(id, updated, existing.applicationNumber), env.auditId, env.nowMs)
      case Failure(_) => (st1, ErrorJson(500, InternalError))
      case Success((st2, _)) => (st2, Json(200, updated))
  }

  /**
   * `updateApplication`: the body goes to the store unvalidated. An unknown id
   * is a 404 and writes nothing; otherwise the row is patched, and a body that
   * submits a draft also opens a payment and writes an audit entry. The answer
   * is the patched row.
   */
  function UpdateApplicationReply(st: Store, id: string, body: ApplicationPatch, env: AppEnv): (r: (Store, Reply<Application>))
    ensures !IdTaken(st, id) ==> r == (st, ErrorJson(404, "Application not found"))
    ensures r.1.Json? ==> r.1.status == 200 && r.1.value.id == id
    ensures r.1.Json? ==> r.1.value == ApplyPatch(GetApplication(st, id).value, body, env.nowMs)
    ensures r.0.visas == st.visas
  {
    match GetApplication(st, id)
    case None => (st, ErrorJson(404, "Application not found"))
    case Some(existing) =>
      match UpdateApplication(st, id, body, env.nowMs)
      case Failure(_) => (st, ErrorJson(500, InternalError))
      case Success((st1, updated)) =>
        if updated.None? then assert false; (st1, ErrorJson(500, InternalError))
        else if IsSubmission(existing, body) then Submit(st1, id, existing, updated.value, env)
        else (st1, Json(200, updated.value))
  }

  /** Anything but the submission of a draft writes the row and nothing else. */
  lemma UpdateWithoutSubmission(st: Store, id: string, body: ApplicationPatch, env: AppEnv)
    requires GetApplication(st, id).Some? && !IsSubmission(GetApplication(st, id).value, body)
    ensures var r := UpdateApplicationReply(st, id, body, env);
      && r.0.payments == st.payments && r.0.auditLogs == st.auditLogs
      && (r.1.Json? <==> !NumberClash(st, id, body))
      && (r.1.Json? ==> r.0.applications == PatchRows(st.applications, id, body, env.nowMs))
      && (r.1.ErrorJson? ==> r == (st, ErrorJson(500, InternalError)))
  {
    assert IdTaken(st, id);
  }

  /**
   * Submitting a draft that has no payment opens exactly one pending payment
   * of the product's price plus 5 (or 255), then audits the submission.
   */
  lemma SubmissionOpensPayment(st: Store, id: string, body: ApplicationPatch, env: AppEnv)
    requires GetApplication(st, id).Some? && IsSubmission(GetApplication(st, id).value, body)
    requires GetPaymentByApplicationId(st, id).None?
    ensures var r := UpdateApplicationReply(st, id, body, env);
      var updated := ApplyPatch(GetApplication(st, id).value, body, env.nowMs);
      r.1.Json? ==>
        && |r.0.payments| == |st.payments| + 1
        && r.0.payments[..|st.payments|] == st.payments
        && var p := r.0.payments[|st.payments|];
        && p.applicationId == id && p.status == Pending && p.id == env.paymentId
        && p.amount == SubmissionAmount(GetVisaProducts(st), updated.visaType)
        && p.phoneNumber == OrEmpty(Column(updated, "phone"))
  {
    var existing := GetApplication(st, id).value;
    assert IdTaken(st, id);
    var u := UpdateApplication(st, id, body, env.nowMs);
    if u.Success? {
      var (st1, updated) := u.value;
      assert st1.payments == st.payments && st1.products == st.products;
      SubmitOpensPayment(st1, id, existing, updated.value, env);
    }
  }

  lemma SubmitOpensPayment(st: Store, id: string, existing: Application, updated: Application, env: AppEnv)
    requires GetPaymentByApplicationId(st, id).None?
    requires updated.id == id
    ensures var r := Submit(st, id, existing, updated, env);
      r.1.Json? ==>
        && |r.0.payments| == |st.payments| + 1
        && r.0.payments[..|st.payments|] == st.payments
        && var p := r.0.payments[|st.payments|];
        && p.applicationId == id && p.status == Pending && p.id == env.paymentId
        && p.amount == SubmissionAmount(GetVisaProducts(st), updated.visaType)
        && p.phoneNumber == OrEmpty(Column(updated, "phone"))
  {
  }

  /** Number of payments of an application. */
  function PaymentsOf(ps: seq<Payment>, id: string): (n: nat)
    ensures n <= |ps|
    ensures n == 0 <==> forall k :: 0 <= k < |ps| ==> ps[k].applicationId != id
  {
    if |ps| == 0 then 0
    else PaymentsOf(ps[..|ps| - 1], id) + (if ps[|ps| - 1].applicationId == id then 1 else 0)
  }

  /** Appending a payment adds one to its application's count and none to the others. */
  lemma PaymentsOfAppend(ps: seq<Payment>, p: Payment, id: string)
    ensures PaymentsOf(ps + [p], id) == PaymentsOf(ps, id) + (if p.applicationId == id then 1 else 0)
  {
    assert (ps + [p])[..|ps|] == ps;
  }

  /**
   * A submission never opens a second payment: an update keeps every
   * application at one payment at most.
   */
  lemma AtMostOnePayment(st: Store, id: string, body: ApplicationPatch, env: AppEnv, other: string)
    requires PaymentsOf(st.payments, other) <= 1
    ensures PaymentsOf(UpdateApplicationReply(st, id, body, env).0.payments, other) <= 1
  {
    match GetApplication(st, id)
    case None =>
    case Some(existing) =>
      match UpdateApplication(st, id, body, env.nowMs)
      case Failure(_) =>
      case Success((st1, updated)) =>
        assert IdTaken(st, id);
        assert st1.payments == st.payments;
        if updated.Some? && IsSubmission(existing, body) {
          SubmitAtMostOnePayment(st1, id, existing, updated.value, env, other);
        }
  }

  /** The side effects of a submission open a payment only for an application that has none. */
  lemma SubmitAtMostOnePayment(st: Store, id: string, existing: Application, updated: Application, env: AppEnv, other: string)
    requires updated.id == id
    requires PaymentsOf(st.payments, other) <= 1
    ensures PaymentsOf(Submit(st, id, existing, updated, env).0.payments, other) <= 1
  {
    if GetPaymentByApplicationId(st, id).None? {
      var ins := SubmissionPayment(updated, SubmissionAmount(GetVisaProducts(st), updated.visaType));
      var c := CreatePayment(st, ins, env.paymentId, env.nowMs);
      if c.Success? {
        var (st1, p) := c.value;
        assert Submit(st, id, existing, updated, env).0.payments == st1.payments by {
          var a := CreateAuditLog(st1, SubmissionAudit(id, updated, existing.applicationNumber), env.auditId, env.nowMs);
          if a.Success? { assert a.value.0.payments == st1.payments; }
        }
        PaymentsOfAppend(st.payments, p, other);
        assert p.applicationId == id;
        assert other == id ==> PaymentsOf(st.payments, other) == 0;
      }
    } else {
      var a := CreateAuditLog(st, SubmissionAudit(id, updated, existing.applicationNumber), env.auditId, env.nowMs);
      if a.Success? { assert a.value.0.payments == st.payments; }
    }
  }

  /**
   * The simulated confirmation that fires two seconds after a payment is
   * opened: the application's first payment becomes `PAID` with a
   * `TXN-<time>` transaction id, and the application's payment status too.
   * Without a payment nothing changes.
   */
  function ConfirmPayment(st: Store, applicationId: string, nowMs: nat): (r: Store)
    ensures GetPaymentByApplicationId(st, applicationId).None? ==> r == st
    ensures GetPaymentByApplicationId(st, applicationId).Some? ==>
      var pid := GetPaymentByApplicationId(st, applicationId).value.id;
      forall k :: 0 <= k < |r.payments| && r.payments[k].id == pid ==> r.payments[k].status == Paid
    ensures forall k :: 0 <= k < |r.applications| && r.applications[k].id == applicationId ==>
      r.applications[k].paymentStatus == Some(Paid)
      || GetPaymentByApplicationId(st, applicationId).None?
    ensures r.applications == PatchRows(st.applications, applicationId, PaidPatch, nowMs) || r == st
    ensures r.visas == st.visas && r.auditLogs == st.auditLogs
  {
    match GetPaymentByApplicationId(st, applicationId)
    case None => st
    case Some(p) => MarkApplicationPaid(PayPayment(st, p.id, nowMs), applicationId, nowMs)
  }

  /** The patch that marks an application's payment status as `PAID`. */
  const PaidPatch: ApplicationPatch := EmptyPatch.(paymentStatus := Some(Some(Paid)))

  /** The payment update of the confirmation: status `PAID`, a `TXN-<time>` transaction id, paid now. */
  function PayPayment(st: Store, pid: string, nowMs: nat): (r: Store)
    ensures r.applications == st.applications && r.visas == st.visas && r.auditLogs == st.auditLogs
    ensures forall k :: 0 <= k < |r.payments| && r.payments[k].id == pid ==> r.payments[k].status == Paid
  {
    UpdatePayment(st, pid, PaymentPatch(Some(Paid), Some(Some("TXN-" + NatToDecimal(nowMs))), Some(Some(nowMs)))).0
  }

  /** The application update of the confirmation; it cannot clash, as it writes no number. */
  function MarkApplicationPaid(st: Store, applicationId: string, nowMs: nat): (r: Store)
    ensures r.payments == st.payments && r.visas == st.visas && r.auditLogs == st.auditLogs
    ensures r.applications == PatchRows(st.applications, applicationId, PaidPatch, nowMs) || r == st
    ensures forall k :: 0 <= k < |r.applications| && r.applications[k].id == applicationId ==>
      r.applications[k].paymentStatus == Some(Paid)
  {
    match UpdateApplication(st, applicationId, PaidPatch, nowMs)
    case Success((st2, _)) => st2
    case Failure(_) => assert false; st
  }

  // trackApplication

  /**
   * `trackApplication`: 400 without an e-mail; 404 when no application has
   * that number (ignoring case) or its e-mail differs (ignoring case); the
   * row otherwise.
   */
  function TrackApplication(st: Store, reference: string, email: Option<string>): (r: Reply<Application>)
    ensures !Present(email) ==> r == ErrorJson(400, "Email address is required")
    ensures r.Json? ==>
      && r.status == 200 && r.value in st.applications
      && ToLower(r.value.applicationNumber) == ToLower(reference)
      && ToLower(r.value.email) == ToLower(email.value)
    ensures r.ErrorJson? && Present(email) ==> r == ErrorJson(404, "Application not found")
  {
    if !Present(email) then ErrorJson(400, "Email address is required")
    else match GetApplicationByNumber(st, reference)
      case None => ErrorJson(404, "Application not found")
      case Some(a) =>
        if ToLower(a.email) != ToLower(email.value) then ErrorJson(404, "Application not found")
        else Json(200, a)
  }

  /**
   * A wrong e-mail gets the very answer an unknown reference gets, so the
   * endpoint does not reveal which references exist.
   */
  lemma TrackHidesExistence(st: Store, reference: string, email: string, other: Store)
    requires email != ""
    requires GetApplicationByNumber(st, reference).Some?
    requires ToLower(GetApplicationByNumber(st, reference).value.email) != ToLower(email)
    requires GetApplicationByNumber(other, reference).None?
    ensures TrackApplication(st, reference, Some(email)) == TrackApplication(other, reference, Some(email))
  {
  }

  /**
   * Tracking answers with the row exactly when the e-mail is given and the
   * first application with that number (ignoring case) has that e-mail
   * (ignoring case).
   */
  lemma TrackIff(st: Store, reference: string, email: string)
    ensures TrackApplication(st, reference, Some(email)).Json? <==>
      && email != ""
      && GetApplicationByNumber(st, reference).Some?
      && ToLower(GetApplicationByNumber(st, reference).value.email) == ToLower(email)
  {
  }

  /** Reference and e-mail are both matched without regard to case. */
  lemma TrackIgnoresCase(st: Store, ref1: string, ref2: string, email1: string, email2: string)
    requires ToLower(ref1) == ToLower(ref2) && ToLower(email1) == ToLower(email2)
    requires email1 != "" && email2 != ""
    ensures TrackApplication(st, ref1, Some(email1)) == TrackApplication(st, ref2, Some(email2))
  {
    ByNumberIgnoresCase(st, ref1, ref2);
  }
}
