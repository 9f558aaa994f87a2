/**
 * The request-body schemas of the server (`server/utils/schemas.ts`): the body
 * of a new draft, of an administrator's status decision, and of an application
 * update. Body values are modelled as strings or absent; zod's e-mail check is
 * the parameter `isEmail`.
 */
module RequestSchemas {
  import opened Wrappers
  import opened Text
  import opened Schema
  import Validation

  // DraftSchema

  /** The fields of a `POST /api/applications` body; `None` is an absent field. */
  datatype DraftBody = DraftBody(
    firstName: Option<string>,
    lastName: Option<string>,
    email: Option<string>,
    nationality: Option<string>,
    visaType: Option<string>)

  /** A body `DraftSchema` accepted. */
  datatype NewDraft = NewDraft(
    firstName: string, lastName: string, email: string, nationality: string, visaType: Option<string>)

  /** Present with at least `min` characters. */
  predicate HasLength(o: Option<string>, min: nat) {
    o.Some? && |o.value| >= min
  }

  /** `DraftSchema.parse`: the parsed body, or `None` where zod throws. */
  function ParseDraft(b: DraftBody, isEmail: string -> bool): (r: Option<NewDraft>)
    ensures r.Some? <==>
      HasLength(b.firstName, 1) && HasLength(b.lastName, 1)
      && b.email.Some? && isEmail(b.email.value) && HasLength(b.nationality, 2)
    ensures r.Some? ==>
      && Some(r.value.firstName) == b.firstName && Some(r.value.lastName) == b.lastName
      && Some(r.value.email) == b.email && Some(r.value.nationality) == b.nationality
      && r.value.visaType == b.visaType
  {
    if HasLength(b.firstName, 1) && HasLength(b.lastName, 1)
       && b.email.Some? && isEmail(b.email.value) && HasLength(b.nationality, 2)
    then Some(NewDraft(b.firstName.value, b.lastName.value, b.email.value, b.nationality.value, b.visaType))
    else None
  }

  /**
   * The wizard's personal-information step is stricter than the draft schema:
   * whatever it accepts, sent as a draft, parses unchanged.
   */
  lemma PersonalInfoMakesDraft(p: PersonalInfo, isEmail: string -> bool, visaType: Option<string>)
    requires PersonalInfoValid(p, isEmail)
    ensures ParseDraft(DraftBody(Some(p.firstName), Some(p.lastName), Some(p.email), Some(p.nationality), visaType), isEmail)
         == Some(NewDraft(p.firstName, p.lastName, p.email, p.nationality, visaType))
  {
  }

  // AdminStatusSchema

  /** The statuses an administrator may set. */
  const AdminStatuses: seq<Status> := [UnderReview, NeedInfo, Rejected, Approved, Issued]

  /** The body of `PATCH /api/admin/applications/:id/status`. */
  datatype AdminStatusBody = AdminStatusBody(status: Option<string>, notes: Notes)

  /** A decision `AdminStatusSchema` accepted; `notes` absent, `null` or text. */
  datatype AdminDecision = AdminDecision(status: Status, notes: Notes)

  /** `AdminStatusSchema.parse`: the decision, or `None` where zod throws. */
  function ParseAdminStatus(b: AdminStatusBody): (r: Option<AdminDecision>)
    ensures r.Some? <==> exists s :: s in AdminStatuses && b.status == Some(StatusName(s))
    ensures r.Some? ==> b.status == Some(StatusName(r.value.status)) && r.value.notes == b.notes
  {
    if b.status.None? then None
    else match ParseStatus(b.status.value)
      case Some(s) => if s in AdminStatuses then Some(AdminDecision(s, b.notes)) else None
      case None => None
  }

  /**
   * The schema takes exactly five of the nine statuses: it refuses `DRAFT`,
   * `SUBMITTED`, `EXPIRED` and `REVOKED`.
   */
  lemma AdminStatusesExactly(s: Status, notes: Notes)
    ensures ParseAdminStatus(AdminStatusBody(Some(StatusName(s)), notes)).Some?
        <==> s != Draft && s != Submitted && s != Expired && s != Revoked
  {
    StatusesComplete();
  }

  // UpdateApplicationSchema

  /**
   * The body of `PATCH /api/applications/:id`: the text fields present in it,
   * and each date field present with its `z.coerce.date()` value (`None` when
   * the value is not a date).
   */
  datatype UpdateBody = UpdateBody(text: map<string, string>, dates: map<string, Option<int>>)

  const DateFields: seq<string> := ["dateOfBirth", "passportExpiry", "arrivalDate"]

  /** The statuses the update schema names: all but `EXPIRED` and `REVOKED`. */
  const UpdateStatuses: seq<Status> := [Draft, Submitted, UnderReview, NeedInfo, Rejected, Approved, Issued]

  const UpdatePaymentStatuses: seq<PaymentStatus> := [Pending, Paid, Failed]

  /** Absent, or at least `min` characters. */
  predicate MinIfPresent(b: UpdateBody, field: string, min: nat) {
    field in b.text ==> |b.text[field]| >= min
  }

  /** Absent, or one of the names of `names`. */
  predicate StatusIfPresent(b: UpdateBody, field: string, names: seq<string>) {
    field in b.text ==> b.text[field] in names
  }

  function StatusNames(ss: seq<Status>): (r: seq<string>)
    ensures |r| == |ss|
    ensures forall i :: 0 <= i < |ss| ==> r[i] == StatusName(ss[i])
  {
    seq(|ss|, i requires 0 <= i < |ss| => StatusName(ss[i]))
  }

  function PaymentStatusNames(ss: seq<PaymentStatus>): (r: seq<string>)
    ensures |r| == |ss|
    ensures forall i :: 0 <= i < |ss| ==> r[i] == PaymentStatusName(ss[i])
  {
    seq(|ss|, i requires 0 <= i < |ss| => PaymentStatusName(ss[i]))
  }

  /** `UpdateApplicationSchema` accepts the body; every field is optional. */
  predicate UpdateBodyValid(b: UpdateBody, isEmail: string -> bool) {
    && MinIfPresent(b, "firstName", 1) && MinIfPresent(b, "lastName", 1)
    && ("email" in b.text ==> isEmail(b.text["email"]))
    && MinIfPresent(b, "placeOfBirth", 2)
    && ("gender" in b.text ==> b.text["gender"] in Validation.FormGenders)
    && MinIfPresent(b, "nationality", 2)
    && ("passportNumber" in b.text ==>
          6 <= |b.text["passportNumber"]| <= 15 && AllAlnum(b.text["passportNumber"]))
    && MinIfPresent(b, "countryOfOrigin", 2)
    && ("purposeOfVisit" in b.text ==> 10 <= |b.text["purposeOfVisit"]| <= 500)
    && ("institutionCode" in b.text ==> |b.text["institutionCode"]| <= 50)
    && MinIfPresent(b, "phone", 8)
    && StatusIfPresent(b, "status", StatusNames(UpdateStatuses))
    && StatusIfPresent(b, "paymentStatus", PaymentStatusNames(UpdatePaymentStatuses))
    && (forall f :: f in b.dates && f in DateFields ==> b.dates[f].Some?)
  }

  /** Every field is optional: the empty body is accepted. */
  lemma EmptyUpdateAccepted(isEmail: string -> bool)
    ensures UpdateBodyValid(UpdateBody(map[], map[]), isEmail)
  {
  }

  /** A body holding one text field is judged by that field's rule alone. */
  lemma SingleFieldBody(field: string, v: string, isEmail: string -> bool)
    ensures field == "status" ==>
      (UpdateBodyValid(UpdateBody(map[field := v], map[]), isEmail) <==> v in StatusNames(UpdateStatuses))
    ensures field == "paymentStatus" ==>
      (UpdateBodyValid(UpdateBody(map[field := v], map[]), isEmail) <==> v in PaymentStatusNames(UpdatePaymentStatuses))
  {
  }

  /** A body setting only `status` is accepted unless it is `EXPIRED` or `REVOKED`. */
  lemma UpdateStatusRule(s: Status, isEmail: string -> bool)
    ensures UpdateBodyValid(UpdateBody(map["status" := StatusName(s)], map[]), isEmail)
        <==> s != Expired && s != Revoked
  {
    SingleFieldBody("status", StatusName(s), isEmail);
    var names := StatusNames(UpdateStatuses);
    assert names == ["DRAFT", "SUBMITTED", "UNDER_REVIEW", "NEED_INFO", "REJECTED", "APPROVED", "ISSUED"];
  }

  /** A body setting only `paymentStatus` is accepted for `PENDING`, `PAID` and `FAILED` only. */
  lemma UpdatePaymentStatusRule(s: PaymentStatus, isEmail: string -> bool)
    ensures UpdateBodyValid(UpdateBody(map["paymentStatus" := PaymentStatusName(s)], map[]), isEmail)
        <==> s == Pending || s == Paid || s == Failed
  {
    SingleFieldBody("paymentStatus", PaymentStatusName(s), isEmail);
    var names := PaymentStatusNames(UpdatePaymentStatuses);
    assert names == ["PENDING", "PAID", "FAILED"];
  }

  /**
   * The update schema checks a passport number and a purpose exactly as the
   * application form does, and accepts every phone number and institution code
   * the form accepts.
   */
  lemma UpdateAgreesWithForm(field: string, v: string, isEmail: string -> bool)
    ensures var b := UpdateBody(map[field := v], map[]);
      && (field == "passportNumber" ==> (UpdateBodyValid(b, isEmail) <==> Validation.PassportNumberValid(Some(v))))
      && (field == "purposeOfVisit" ==> (UpdateBodyValid(b, isEmail) <==> Validation.PurposeValid(Some(v))))
      && (field == "phone" && Validation.PhoneValid(Some(v)) ==> UpdateBodyValid(b, isEmail))
      && (field == "institutionCode" && Validation.InstitutionCodeValid(Some(v)) ==> UpdateBodyValid(b, isEmail))
  {
  }
}
