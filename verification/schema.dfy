/**
 * The shared data model: the status enumerations, the label tables, the rows of
 * the users, visa products, applications, visas, payments and audit-log tables,
 * and the form schemas of the application wizard.
 */
module Schema {
  import opened Wrappers
  import opened Text

  /** The nine application statuses, in declaration order. */
  datatype Status =
    | Draft | Submitted | UnderReview | NeedInfo | Approved
    | Rejected | Issued | Expired | Revoked

  const Statuses: seq<Status> :=
    [Draft, Submitted, UnderReview, NeedInfo, Approved, Rejected, Issued, Expired, Revoked]

  /** The text stored in the `status` column. */
  function StatusName(s: Status): string {
    match s
    case Draft => "DRAFT"
    case Submitted => "SUBMITTED"
    case UnderReview => "UNDER_REVIEW"
    case NeedInfo => "NEED_INFO"
    case Approved => "APPROVED"
    case Rejected => "REJECTED"
    case Issued => "ISSUED"
    case Expired => "EXPIRED"
    case Revoked => "REVOKED"
  }

  /** The status a column text names, if it names one. */
  function ParseStatus(name: string): (r: Option<Status>)
    ensures r.Some? ==> StatusName(r.value) == name
    ensures r.None? ==> forall s: Status :: StatusName(s) != name
  {
    if name == "DRAFT" then Some(Draft)
    else if name == "SUBMITTED" then Some(Submitted)
    else if name == "UNDER_REVIEW" then Some(UnderReview)
    else if name == "NEED_INFO" then Some(NeedInfo)
    else if name == "APPROVED" then Some(Approved)
    else if name == "REJECTED" then Some(Rejected)
    else if name == "ISSUED" then Some(Issued)
    else if name == "EXPIRED" then Some(Expired)
    else if name == "REVOKED" then Some(Revoked)
    else None
  }

  /** Exactly nine statuses, listed once each, with distinct names that parse back. */
  lemma StatusesComplete()
    ensures |Statuses| == 9
    ensures forall s: Status :: s in Statuses && ParseStatus(StatusName(s)) == Some(s)
    ensures forall i, j :: 0 <= i < j < |Statuses| ==> Statuses[i] != Statuses[j]
    ensures forall s, t: Status :: StatusName(s) == StatusName(t) ==> s == t
  {
    forall s: Status
      ensures s in Statuses && ParseStatus(StatusName(s)) == Some(s)
    {
      match s
      case Draft => assert Statuses[0] == s;
      case Submitted => assert Statuses[1] == s;
      case UnderReview => assert Statuses[2] == s;
      case NeedInfo => assert Statuses[3] == s;
      case Approved => assert Statuses[4] == s;
      case Rejected => assert Statuses[5] == s;
      case Issued => assert Statuses[6] == s;
      case Expired => assert Statuses[7] == s;
      case Revoked => assert Statuses[8] == s;
    }
  }

  /** The five payment statuses. */
  datatype PaymentStatus = Initiated | Pending | Paid | Failed | Cancelled

  const PaymentStatuses: seq<PaymentStatus> := [Initiated, Pending, Paid, Failed, Cancelled]

  function PaymentStatusName(s: PaymentStatus): string {
    match s
    case Initiated => "INITIATED"
    case Pending => "PENDING"
    case Paid => "PAID"
    case Failed => "FAILED"
    case Cancelled => "CANCELLED"
  }

  function ParsePaymentStatus(name: string): (r: Option<PaymentStatus>)
    ensures r.Some? ==> PaymentStatusName(r.value) == name
    ensures r.None? ==> forall s: PaymentStatus :: PaymentStatusName(s) != name
  {
    if name == "INITIATED" then Some(Initiated)
    else if name == "PENDING" then Some(Pending)
    else if name == "PAID" then Some(Paid)
    else if name == "FAILED" then Some(Failed)
    else if name == "CANCELLED" then Some(Cancelled)
    else None
  }

  /** Exactly five payment statuses, listed once each, with distinct names. */
  lemma PaymentStatusesComplete()
    ensures |PaymentStatuses| == 5
    ensures forall s: PaymentStatus :: s in PaymentStatuses && ParsePaymentStatus(PaymentStatusName(s)) == Some(s)
    ensures forall i, j :: 0 <= i < j < |PaymentStatuses| ==> PaymentStatuses[i] != PaymentStatuses[j]
  {
    forall s: PaymentStatus
      ensures s in PaymentStatuses && ParsePaymentStatus(PaymentStatusName(s)) == Some(s)
    {
      match s
      case Initiated => assert PaymentStatuses[0] == s;
      case Pending => assert PaymentStatuses[1] == s;
      case Paid => assert PaymentStatuses[2] == s;
      case Failed => assert PaymentStatuses[3] == s;
      case Cancelled => assert PaymentStatuses[4] == s;
    }
  }

  /** A French and English label and a badge colour. */
  datatype Label = Label(fr: string, en: string, color: string)

  /** `statusLabels`: one entry per status. */
  function StatusLabel(s: Status): Label {
    match s
    case Draft => Label("Brouillon", "Draft", "gray")
    case Submitted => Label("Soumis", "Submitted", "blue")
    case UnderReview => Label("En cours d'examen", "Under Review", "yellow")
    case NeedInfo => Label("Informations requises", "Need Info", "orange")
    case Approved => Label("Approuvé", "Approved", "green")
    case Rejected => Label("Rejeté", "Rejected", "red")
    case Issued => Label("Émis", "Issued", "green")
    case Expired => Label("Expiré", "Expired", "gray")
    case Revoked => Label("Révoqué", "Revoked", "red")
  }

  /** Every status has its own label in both languages, so a label names its status. */
  lemma StatusLabelsDistinct(s: Status, t: Status)
    ensures StatusLabel(s).en == StatusLabel(t).en ==> s == t
    ensures StatusLabel(s).fr == StatusLabel(t).fr ==> s == t
  {
  }

  /** One entry of `visaTypeLabels`. */
  datatype VisaTypeInfo = VisaTypeInfo(fr: string, en: string, duration: int, price: int)

  const VisaTypes: seq<string> := ["TOURISM", "BUSINESS", "TRANSIT", "SHORT_STAY"]

  /** `visaTypeLabels[t]`: defined for the four declared visa types only. */
  function VisaTypeLabel(t: string): (r: Option<VisaTypeInfo>)
    ensures r.Some? <==> t in VisaTypes
    ensures r.Some? ==> r.value.duration > 0 && r.value.price > 0
  {
    if t == "TOURISM" then Some(VisaTypeInfo("Tourisme", "Tourism", 30, 50))
    else if t == "BUSINESS" then Some(VisaTypeInfo("Affaires", "Business", 90, 100))
    else if t == "TRANSIT" then Some(VisaTypeInfo("Transit", "Transit", 7, 30))
    else if t == "SHORT_STAY" then Some(VisaTypeInfo("Court séjour", "Short Stay", 15, 40))
    else None
  }

  /** A longer stay never costs less, and a dearer visa type never allows a shorter stay. */
  lemma VisaTypePricesFollowDuration(s: string, t: string)
    requires s in VisaTypes && t in VisaTypes
    ensures VisaTypeLabel(s).value.duration <= VisaTypeLabel(t).value.duration
        <==> VisaTypeLabel(s).value.price <= VisaTypeLabel(t).value.price
  {
  }

  /** A row of `users`. */
  datatype User = User(id: string, username: string, password: string, role: string, fullName: Option<string>)

  /** A row of `visa_products`: the priced product behind a visa type. */
  datatype VisaProduct = VisaProduct(productType: string, price: int, durationDays: int, isActive: bool)

  /**
   * A row of `applications`, with the columns the server code reads and writes.
   * The columns the workflow rules use have their own fields. Every other text
   * column (phone, passport and travel details, sponsor, document paths) lives
   * in `columns`, keyed by column name; a missing key stands for a value the
   * code treats as absent (`null` or `undefined`), whether or not the table
   * declares the column `NOT NULL`.
   */
  datatype Application = Application(
    id: string,
    applicationNumber: string,
    sequenceNumber: int,
    visaType: string,
    status: Status,
    firstName: string,
    lastName: string,
    email: string,
    nationality: string,
    paymentStatus: Option<PaymentStatus>,
    submittedAt: Option<int>,
    createdAt: int,
    updatedAt: int,
    adminNotes: Option<string>,
    rejectionReason: Option<string>,
    columns: map<string, string>)

  /** The value of a nullable text column. */
  function Column(a: Application, name: string): (r: Option<string>)
    ensures r.Some? <==> name in a.columns
    ensures r.Some? ==> r.value == a.columns[name]
  {
    if name in a.columns then Some(a.columns[name]) else None
  }

  /** A row of `visas`; `validFrom` and `validTo` hold `YYYY-MM-DD` text. */
  datatype Visa = Visa(
    id: string,
    visaNumber: string,
    verificationCode: string,
    applicationId: string,
    validFrom: string,
    validTo: string,
    stayDuration: int,
    pdfUrl: Option<string>,
    issuedAt: int)

  /** A row of `payments`; amounts are whole US dollars. */
  datatype Payment = Payment(
    id: string,
    applicationId: string,
    provider: string,
    phoneNumber: string,
    transactionId: Option<string>,
    amount: int,
    currency: string,
    status: PaymentStatus,
    paidAt: Option<int>,
    createdAt: int)

  /**
   * Notes as a JSON body may carry them: `None` when the key is absent,
   * `Some(None)` for `null`, `Some(Some(text))` for a string.
   */
  type Notes = Option<Option<string>>

  /** The `metadata` JSON of the audit entries the workflow writes. */
  datatype Metadata =
    | DraftCreated(applicationNumber: string, sequence: int)
    | SubmittedFrom(submittedNumber: string)
    | StatusChanged(previousStatus: Status, newStatus: Status, notes: Notes)

  /** A row of `audit_logs`. */
  datatype AuditLog = AuditLog(
    id: string,
    actorId: Option<string>,
    actorName: Option<string>,
    action: string,
    entityType: string,
    entityId: Option<string>,
    metadata: Metadata,
    timestamp: int)

  /** The `personalInfoSchema` form step. */
  datatype PersonalInfo = PersonalInfo(
    firstName: string, lastName: string, email: string, phone: string, nationality: string,
    dateOfBirth: string, placeOfBirth: string, gender: string, occupation: Option<string>)

  const PersonalGenders: seq<string> := ["male", "female", "other"]

  /** `personalInfoSchema` accepts `p`; `isEmail` is zod's e-mail check. */
  predicate PersonalInfoValid(p: PersonalInfo, isEmail: string -> bool) {
    && |p.firstName| >= 2 && |p.lastName| >= 2
    && isEmail(p.email)
    && |p.phone| >= 8 && |p.nationality| >= 2
    && |p.dateOfBirth| >= 1 && |p.placeOfBirth| >= 2
    && p.gender in PersonalGenders
  }

  /** The `passportInfoSchema` form step. */
  datatype PassportInfo = PassportInfo(
    passportNumber: string, passportIssueDate: string, passportExpiryDate: string,
    passportIssuingCountry: string)

  predicate PassportInfoValid(p: PassportInfo) {
    && |p.passportNumber| >= 5
    && |p.passportIssueDate| >= 1 && |p.passportExpiryDate| >= 1
    && |p.passportIssuingCountry| >= 2
  }

  /** The `travelInfoSchema` form step; the optional fields are not checked. */
  datatype TravelInfo = TravelInfo(
    arrivalDate: string, departureDate: string, entryPoint: string, addressInDRC: string,
    purposeOfVisit: Option<string>, sponsorName: Option<string>,
    sponsorAddress: Option<string>, sponsorPhone: Option<string>)

  predicate TravelInfoValid(t: TravelInfo) {
    && |t.arrivalDate| >= 1 && |t.departureDate| >= 1
    && |t.entryPoint| >= 2 && |t.addressInDRC| >= 5
  }
}
