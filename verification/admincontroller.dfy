/**
 * The administrator endpoints of `server/controllers/admin.controller.ts`:
 * login, and the status decision that approves, rejects, asks for
 * information or issues. Each endpoint is a function from the store and the
 * request to the next store and the reply; the clock, the ids the database
 * generates and the random draw of the verification code are parameters.
 */
module AdminController {
  import opened Wrappers
  import opened Calendar
  import opened Schema
  import opened Storage
  import opened Helpers
  import opened RequestSchemas
  import opened Http

  // adminLogin

  /** The user fields a successful login returns; the password is not one of them. */
  datatype LoginUser = LoginUser(id: string, username: string, role: string, fullName: Option<string>)

  /**
   * `adminLogin`: 401 unless a user with that name exists and its stored
   * password equals the given one exactly.
   */
  function AdminLogin(st: Store, username: string, password: Option<string>): (r: Reply<LoginUser>)
    ensures r.Json? <==> GetUserByUsername(st, username).Some? && password == Some(GetUserByUsername(st, username).value.password)
    ensures r.Json? ==> var u := GetUserByUsername(st, username).value;
      r.status == 200 && r.value == LoginUser(u.id, u.username, u.role, u.fullName)
    ensures r.ErrorJson? ==> r.status == 401 && r.message == "Invalid credentials"
  {
    match GetUserByUsername(st, username)
    case None => ErrorJson(401, "Invalid credentials")
    case Some(u) =>
      if password != Some(u.password) then ErrorJson(401, "Invalid credentials")
      else Json(200, LoginUser(u.id, u.username, u.role, u.fullName))
  }

  /**
   * With unique user names, login succeeds exactly when some user row has that
   * name and that password, and it answers with that row's id.
   */
  lemma LoginIffCredentials(st: Store, username: string, password: string)
    requires Valid(st)
    ensures AdminLogin(st, username, Some(password)).Json? <==>
      exists k :: 0 <= k < |st.users| && st.users[k].username == username && st.users[k].password == password
    ensures forall k :: (0 <= k < |st.users| && st.users[k].username == username && st.users[k].password == password
      ==> AdminLogin(st, username, Some(password)).value.id == st.users[k].id)
  {
    var r := GetUserByUsername(st, username);
    if r.Some? {
      var j :| 0 <= j < |st.users| && st.users[j] == r.value && r.value.username == username
               && forall i :: 0 <= i < j ==> st.users[i].username != username;
      forall k | 0 <= k < |st.users| && st.users[k].username == username
        ensures st.users[k] == r.value
      {
        assert k == j;
      }
    }
  }

  // updateApplicationStatus

  /** Which `createVisa` the approval calls: the one in the repository, or the corrected one. */
  datatype VisaWriter = AsWritten | Intended

  function WriteVisa(w: VisaWriter, st: Store, ins: VisaInsert, freshId: string, nowMs: int): Result<(Store, Visa)> {
    match w
    case AsWritten => CreateVisaAsWritten(st, ins, freshId, nowMs)
    case Intended => CreateVisa(st, ins, freshId, nowMs)
  }

  /** What one request depends on besides the store and the body. */
  datatype AdminEnv = AdminEnv(nowMs: nat, visaId: string, auditId: string, randomDigits: string)

  /**
   * The `updateData` of a decision, before approval turns the status into
   * `ISSUED`: the status, and the notes as rejection reason for `REJECTED` or
   * as admin notes for `NEED_INFO` and `APPROVED`; nothing else.
   */
  function DecisionPatch(s: Status, notes: Notes): (p: ApplicationPatch)
    ensures p.status == Some(s)
    ensures p.rejectionReason == if s == Rejected then notes else None
    ensures p.adminNotes == if s == NeedInfo || s == Approved then notes else None
    ensures p.(status := None, rejectionReason := None, adminNotes := None) == EmptyPatch
  {
    EmptyPatch.(status := Some(s),
                rejectionReason := if s == Rejected then notes else None,
                adminNotes := if s == NeedInfo || s == Approved then notes else None)
  }

  const DefaultStayDays: int := 30

  /** The stay of the active product of that visa type, or 30 days when there is none. */
  function StayDuration(products: seq<VisaProduct>, visaType: string): (d: int)
    ensures FindProduct(products, visaType).None? ==> d == DefaultStayDays
    ensures FindProduct(products, visaType).Some? ==> d == FindProduct(products, visaType).value.durationDays
  {
    match FindProduct(products, visaType)
    case None => DefaultStayDays
    case Some(p) => p.durationDays
  }

  /**
   * The first day of validity: the arrival date when the row has one, today
   * otherwise. An arrival text that is not a `YYYY-MM-DD` date makes
   * `toISOString` throw.
   */
  function ValidityStart(a: Application, nowMs: int): (r: Result<int>)
    ensures !Text.Present(Column(a, "arrivalDate")) ==> r == Success(DayOf(nowMs))
    ensures Text.Present(Column(a, "arrivalDate")) ==>
      (r.Success? <==> ParseIsoDate(Column(a, "arrivalDate").value).Some?)
    ensures Text.Present(Column(a, "arrivalDate")) && r.Success? ==>
      ParseIsoDate(Column(a, "arrivalDate").value) == Some(r.value)
  {
    var arrival := Column(a, "arrivalDate");
    if Text.Present(arrival) then
      match ParseIsoDate(arrival.value)
      case Some(d) => Success(d)
      case None => Failure("Invalid time value")
    else Success(DayOf(nowMs))
  }

  /** The visa the approval of `a` asks `createVisa` to store: `days` days from day `from`. */
  function ApprovalVisa(st: Store, a: Application, from: int, days: int, env: AdminEnv): (ins: VisaInsert)
    ensures ins.applicationId == Some(a.id)
    ensures ins.visaNumber == Some(GenerateVisaNumber(NextSequence(st)))
    ensures ins.verificationCode == Some(GenerateVerificationCode(env.nowMs, env.randomDigits))
    ensures ins.stayDuration == Some(days)
    ensures ins.validFrom == Some(IsoDate(from)) && ins.validTo == Some(IsoDate(from + days))
    ensures ins.pdfUrl == Some("/api/visas/" + a.id + "/pdf")
  {
    VisaInsert(Some(a.id), Some(GenerateVisaNumber(NextSequence(st))),
               Some(GenerateVerificationCode(env.nowMs, env.randomDigits)),
               Some(IsoDate(from)), Some(IsoDate(from + days)), Some(days),
               Some("/api/visas/" + a.id + "/pdf"))
  }

  /** The audit entry of a decision: the requested status, and the status it replaced. */
  function DecisionAudit(id: string, previous: Status, d: AdminDecision): (e: AuditEntry)
    ensures e.action == "APPLICATION_" + StatusName(d.status)
    ensures e.metadata == StatusChanged(previous, d.status, d.notes)
    ensures e.entityId == Some(id) && e.actorId.None?
  {
    AuditEntry(None, Some("Admin DGM"), "APPLICATION_" + StatusName(d.status), "application", Some(id),
               StatusChanged(previous, d.status, d.notes))
  }

  /** The last two steps of a decision: write the row, then the audit entry. */
  function Conclude(st: Store, a: Application, d: AdminDecision, p: ApplicationPatch, env: AdminEnv): (r: (Store, Reply<Application>))
    requires GetApplication(st, a.id) == Some(a)
    requires p.applicationNumber.None?
    ensures var st1 := st.(applications := PatchRows(st.applications, a.id, p, env.nowMs));
      && (r.1.Json? <==> CreateAuditLog(st1, DecisionAudit(a.id, a.status, d), env.auditId, env.nowMs).Success?)
      && (r.1.Json? ==> r == (CreateAuditLog(st1, DecisionAudit(a.id, a.status, d), env.auditId, env.nowMs).value.0,
                             Json(200, ApplyPatch(a, p, env.nowMs))))
      && (r.1.ErrorJson? ==> r == (st1, ErrorJson(500, InternalError)))
  {
    assert IdTaken(st, a.id);
    match UpdateApplication(st, a.id, p, env.nowMs)
    case Failure(_) => assert false; (st, ErrorJson(500, InternalError))
    case Success((st1, row)) =>
      match CreateAuditLog(st1, DecisionAudit(a.id, a.status, d), env.auditId, env.nowMs)
      case Failure(_) => (st1, ErrorJson(500, InternalError))
      case Success((st2, _)) => (st2, Json(200, row.value))
  }

  /**
   * `updateApplicationStatus` for application `id`. A body the schema refuses
   * is a 500; an unknown id a 404. Approval first stores a visa and then
   * records `ISSUED`; any other decision records the requested status. The
   * previous status is never consulted except for the audit entry.
   */
  function UpdateApplicationStatus(st: Store, id: string, body: AdminStatusBody, w: VisaWriter, env: AdminEnv): (r: (Store, Reply<Application>))
    ensures ParseAdminStatus(body).None? ==> r == (st, ErrorJson(500, InternalError))
    ensures ParseAdminStatus(body).Some? && GetApplication(st, id).None? ==> r == (st, ErrorJson(404, "Application not found"))
    ensures r.1.Json? ==> r.1.status == 200 && r.1.value.id == id
    ensures r.1.Json? && ParseAdminStatus(body).value.status == Approved ==> r.1.value.status == Issued
    ensures r.1.Json? && ParseAdminStatus(body).value.status != Approved ==> r.1.value.status == ParseAdminStatus(body).value.status
  {
    match ParseAdminStatus(body)
    case None => (st, ErrorJson(500, InternalError))
    case Some(d) =>
      match GetApplication(st, id)
      case None => (st, ErrorJson(404, "Application not found"))
      case Some(a) =>
        if d.status != Approved then Conclude(st, a, d, DecisionPatch(d.status, d.notes), env)
        else Approve(st, a, d, w, env)
  }

  /**
   * The approval branch: the visa is stored first, and only then is the row
   * recorded as `ISSUED` and the audit entry written.
   */
  function Approve(st: Store, a: Application, d: AdminDecision, w: VisaWriter, env: AdminEnv): (r: (Store, Reply<Application>))
    requires GetApplication(st, a.id) == Some(a)
    ensures r.1.Json? ==> r.1.status == 200 && r.1.value.id == a.id && r.1.value.status == Issued
  {
    match ValidityStart(a, env.nowMs)
    case Failure(_) => (st, ErrorJson(500, InternalError))
    case Success(from) =>
      var days := StayDuration(GetVisaProducts(st), a.visaType);
      match WriteVisa(w, st, ApprovalVisa(st, a, from, days, env), env.visaId, env.nowMs)
      case Failure(_) => (st, ErrorJson(500, InternalError))
      case Success((st1, _)) =>
        assert st1.applications == st.applications by {
          if w == AsWritten { assert false; }
        }
        Conclude(st1, a, d, DecisionPatch(d.status, d.notes).(status := Some(Issued)), env)
  }

  /** The audit row a decision appends. */
  function DecisionLog(a: Application, d: AdminDecision, env: AdminEnv): AuditLog {
    AuditLog(env.auditId, None, Some("Admin DGM"), "APPLICATION_" + StatusName(d.status), "application",
             Some(a.id), StatusChanged(a.status, d.status, d.notes), env.nowMs)
  }

  predicate AuditIdFresh(st: Store, auditId: string) {
    forall k :: 0 <= k < |st.auditLogs| ==> st.auditLogs[k].id != auditId
  }

  /**
   * Any decision but approval, whatever the current status: no visa; the row
   * gets the requested status, the notes as rejection reason (`REJECTED`) or
   * admin notes (`NEED_INFO`), and nothing else but `updatedAt`; the audit
   * entry records the previous and the requested status.
   */
  lemma OtherDecision(st: Store, id: string, body: AdminStatusBody, w: VisaWriter, env: AdminEnv, a: Application)
    requires ParseAdminStatus(body).Some? && ParseAdminStatus(body).value.status != Approved
    requires GetApplication(st, id) == Some(a)
    ensures var d := ParseAdminStatus(body).value;
      var r := UpdateApplicationStatus(st, id, body, w, env);
      var row := a.(status := d.status,
                    rejectionReason := if d.status == Rejected then d.notes.GetOr(a.rejectionReason) else a.rejectionReason,
                    adminNotes := if d.status == NeedInfo then d.notes.GetOr(a.adminNotes) else a.adminNotes,
                    updatedAt := env.nowMs);
      && r.0.visas == st.visas
      && (r.1.Json? <==> AuditIdFresh(st, env.auditId))
      && (r.1.Json? ==> r.1.value == row && r.0.auditLogs == st.auditLogs + [DecisionLog(a, d, env)])
      && (r.1.ErrorJson? ==> r.1.status == 500 && r.0.auditLogs == st.auditLogs)
  {
    var d := ParseAdminStatus(body).value;
    assert a.id == id;
    assert PatchColumns(a.columns, map[]) == a.columns;
  }

  /**
   * Approval with the corrected `createVisa`: when the visa is stored, it runs
   * from the arrival day (or today) for the product's stay (or 30 days), and
   * the row is recorded as `ISSUED` with the notes as admin notes; when the
   * visa is refused, nothing is written.
   */
  lemma Approval(st: Store, id: string, body: AdminStatusBody, env: AdminEnv, a: Application, from: int)
    requires ParseAdminStatus(body).Some? && ParseAdminStatus(body).value.status == Approved
    requires GetApplication(st, id) == Some(a)
    requires ValidityStart(a, env.nowMs) == Success(from)
    ensures var d := ParseAdminStatus(body).value;
      var r := UpdateApplicationStatus(st, id, body, Intended, env);
      var days := StayDuration(GetVisaProducts(st), a.visaType);
      var ins := ApprovalVisa(st, a, from, days, env);
      var stored := CreateVisa(st, ins, env.visaId, env.nowMs);
      && (stored.Failure? ==> r == (st, ErrorJson(500, InternalError)))
      && (r.1.Json? <==> stored.Success? && AuditIdFresh(st, env.auditId))
      && (r.1.Json? ==>
            && r.0.visas == st.visas + [stored.value.1]
            && stored.value.1.applicationId == id
            && stored.value.1.visaNumber == GenerateVisaNumber(NextSequence(st))
            && stored.value.1.validFrom == IsoDate(from)
            && stored.value.1.validTo == IsoDate(from + days)
            && stored.value.1.stayDuration == days
            && r.1.value == a.(status := Issued, adminNotes := d.notes.GetOr(a.adminNotes), updatedAt := env.nowMs)
            && r.0.auditLogs == st.auditLogs + [DecisionLog(a, d, env)])
  {
    var d := ParseAdminStatus(body).value;
    assert a.id == id;
    assert UpdateApplicationStatus(st, id, body, Intended, env) == Approve(st, a, d, Intended, env);
    ApproveOutcome(st, a, d, env, from);
    ApproveStored(st, a, d, env, from);
    ApprovalVisaStored(st, a, from, StayDuration(GetVisaProducts(st), a.visaType), env);
  }

  /** The approval succeeds iff the visa is stored and the audit id is unused. */
  lemma ApproveOutcome(st: Store, a: Application, d: AdminDecision, env: AdminEnv, from: int)
    requires d.status == Approved
    requires GetApplication(st, a.id) == Some(a)
    requires ValidityStart(a, env.nowMs) == Success(from)
    ensures var r := Approve(st, a, d, Intended, env);
      var stored := CreateVisa(st, ApprovalVisa(st, a, from, StayDuration(GetVisaProducts(st), a.visaType), env), env.visaId, env.nowMs);
      && (stored.Failure? ==> r == (st, ErrorJson(500, InternalError)))
      && (r.1.Json? <==> stored.Success? && AuditIdFresh(st, env.auditId))
  {
    var days := StayDuration(GetVisaProducts(st), a.visaType);
    var stored := CreateVisa(st, ApprovalVisa(st, a, from, days, env), env.visaId, env.nowMs);
    ApproveSteps(st, a, d, env, from);
    if stored.Success? {
      var (st1, v) := stored.value;
      ConcludeApproval(st1, a, d, env);
      assert AuditIdFresh(st1, env.auditId) == AuditIdFresh(st, env.auditId);
    }
  }

  /** A successful approval stores the visa and records the row as `ISSUED`. */
  lemma ApproveStored(st: Store, a: Application, d: AdminDecision, env: AdminEnv, from: int)
    requires d.status == Approved
    requires GetApplication(st, a.id) == Some(a)
    requires ValidityStart(a, env.nowMs) == Success(from)
    ensures var r := Approve(st, a, d, Intended, env);
      var stored := CreateVisa(st, ApprovalVisa(st, a, from, StayDuration(GetVisaProducts(st), a.visaType), env), env.visaId, env.nowMs);
      r.1.Json? ==>
        && stored.Success?
        && r.0.visas == st.visas + [stored.value.1]
        && r.1.value == a.(status := Issued, adminNotes := d.notes.GetOr(a.adminNotes), updatedAt := env.nowMs)
        && r.0.auditLogs == st.auditLogs + [DecisionLog(a, d, env)]
  {
    var stored := CreateVisa(st, ApprovalVisa(st, a, from, StayDuration(GetVisaProducts(st), a.visaType), env), env.visaId, env.nowMs);
    ApproveSteps(st, a, d, env, from);
    if stored.Success? {
      ConcludeApproval(stored.value.0, a, d, env);
    }
  }

  /** The visa approval stores: `days` days from day `from`, numbered from the application count. */
  lemma ApprovalVisaStored(st: Store, a: Application, from: int, days: int, env: AdminEnv)
    ensures var stored := CreateVisa(st, ApprovalVisa(st, a, from, days, env), env.visaId, env.nowMs);
      stored.Success? ==>
        && stored.value.1.applicationId == a.id
        && stored.value.1.visaNumber == GenerateVisaNumber(NextSequence(st))
        && stored.value.1.validFrom == IsoDate(from)
        && stored.value.1.validTo == IsoDate(from + days)
        && stored.value.1.stayDuration == days
  {
  }

  /** Approval either fails at the visa or concludes on the store holding it. */
  lemma ApproveSteps(st: Store, a: Application, d: AdminDecision, env: AdminEnv, from: int)
    requires GetApplication(st, a.id) == Some(a)
    requires ValidityStart(a, env.nowMs) == Success(from)
    ensures var ins := ApprovalVisa(st, a, from, StayDuration(GetVisaProducts(st), a.visaType), env);
      var stored := CreateVisa(st, ins, env.visaId, env.nowMs);
      && (stored.Failure? ==> Approve(st, a, d, Intended, env) == (st, ErrorJson(500, InternalError)))
      && (stored.Success? ==>
            && GetApplication(stored.value.0, a.id) == Some(a)
            && Approve(st, a, d, Intended, env)
               == Conclude(stored.value.0, a, d, DecisionPatch(d.status, d.notes).(status := Some(Issued)), env))
  {
    var ins := ApprovalVisa(st, a, from, StayDuration(GetVisaProducts(st), a.visaType), env);
    assert WriteVisa(Intended, st, ins, env.visaId, env.nowMs) == CreateVisa(st, ins, env.visaId, env.nowMs);
  }

  /** The approval's last two steps, on the store holding the new visa. */
  lemma ConcludeApproval(st1: Store, a: Application, d: AdminDecision, env: AdminEnv)
    requires d.status == Approved
    requires GetApplication(st1, a.id) == Some(a)
    ensures var r := Conclude(st1, a, d, DecisionPatch(Approved, d.notes).(status := Some(Issued)), env);
      && (r.1.Json? <==> AuditIdFresh(st1, env.auditId))
      && (r.1.Json? ==>
            && r.0.visas == st1.visas
            && r.1.value == a.(status := Issued, adminNotes := d.notes.GetOr(a.adminNotes), updatedAt := env.nowMs)
            && r.0.auditLogs == st1.auditLogs + [DecisionLog(a, d, env)])
  {
    var p := DecisionPatch(Approved, d.notes).(status := Some(Issued));
    assert PatchColumns(a.columns, map[]) == a.columns;
    assert ApplyPatch(a, p, env.nowMs) == a.(status := Issued, adminNotes := d.notes.GetOr(a.adminNotes), updatedAt := env.nowMs);
  }

  /**
   * Approval with `createVisa` as written: the call throws, so every approval
   * of an existing application ends in a 500 with nothing written.
   */
  lemma ApprovalAsWrittenFails(st: Store, id: string, body: AdminStatusBody, env: AdminEnv)
    requires ParseAdminStatus(body).Some? && ParseAdminStatus(body).value.status == Approved
    requires GetApplication(st, id).Some?
    ensures UpdateApplicationStatus(st, id, body, AsWritten, env) == (st, ErrorJson(500, InternalError))
  {
  }

  /**
   * The validity window reads back as long as it was written: the dates
   * `validFrom` and `validTo` (the start day plus the stay) read back as their
   * own days, so their difference is the stay, for dates written with
   * four-digit years.
   */
  lemma ValidityWindowLength(from: int, to: int)
    requires 0 <= CivilFromDays(from).year <= 9999 && 0 <= CivilFromDays(to).year <= 9999
    ensures ParseIsoDate(IsoDate(from)) == Some(from) && ParseIsoDate(IsoDate(to)) == Some(to)
    ensures ParseIsoDate(IsoDate(to)).value - ParseIsoDate(IsoDate(from)).value == to - from
  {
    IsoDateRoundTrip(from);
    IsoDateRoundTrip(to);
  }
}
