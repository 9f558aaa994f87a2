/**
 * The storage layer: the six tables as sequences of rows in insertion order,
 * and the queries and writes the controllers use. A query that returns
 * `result[0]` returns the first matching row. Each insert and update takes
 * the clock as a parameter, and each insert takes the id the database would
 * generate. A write that would break a primary-key or `UNIQUE` constraint fails.
 */
module Storage {
  import opened Wrappers
  import opened Text
  import opened Digits
  import opened Calendar
  import opened Schema

  datatype Store = Store(
    users: seq<User>,
    products: seq<VisaProduct>,
    applications: seq<Application>,
    visas: seq<Visa>,
    payments: seq<Payment>,
    auditLogs: seq<AuditLog>)

  /** The first row satisfying `p`, as `result[0]` of a filtered query. */
  function First<T>(rows: seq<T>, p: T -> bool): (r: Option<T>)
    ensures r.None? <==> forall k :: 0 <= k < |rows| ==> !p(rows[k])
    ensures r.Some? ==> exists k :: 0 <= k < |rows| && rows[k] == r.value && p(rows[k])
                          && forall j :: 0 <= j < k ==> !p(rows[j])
    decreases |rows|
  {
    if |rows| == 0 then None
    else if p(rows[0]) then Some(rows[0])
    else
      var r := First(rows[1..], p);
      assert forall k :: 1 <= k < |rows| ==> rows[k] == rows[1..][k - 1];
      r
  }

  /** No two rows share a key. */
  ghost predicate Unique<T, K>(rows: seq<T>, key: T -> K) {
    forall i, j :: 0 <= i < j < |rows| ==> key(rows[i]) != key(rows[j])
  }

  /** The primary keys and `UNIQUE` columns of the schema hold. */
  ghost predicate Valid(st: Store) {
    && Unique(st.users, (u: User) => u.id)
    && Unique(st.users, (u: User) => u.username)
    && Unique(st.applications, (a: Application) => a.id)
    && Unique(st.applications, (a: Application) => a.applicationNumber)
    && Unique(st.visas, (v: Visa) => v.id)
    && Unique(st.visas, (v: Visa) => v.visaNumber)
    && Unique(st.visas, (v: Visa) => v.verificationCode)
    && Unique(st.payments, (p: Payment) => p.id)
    && Unique(st.auditLogs, (l: AuditLog) => l.id)
  }

  // users

  /** `getUserByUsername`: the user whose username equals `name` exactly. */
  function GetUserByUsername(st: Store, name: string): (r: Option<User>)
    ensures r.Some? ==> r.value in st.users && r.value.username == name
    ensures r.None? <==> forall k :: 0 <= k < |st.users| ==> st.users[k].username != name
  {
    First(st.users, (u: User) => u.username == name)
  }

  // visa products

  /** `getVisaProducts`: the active products, in table order. */
  function GetVisaProducts(st: Store): (r: seq<VisaProduct>)
    ensures forall p :: p in r <==> p in st.products && p.isActive
  {
    ActiveProducts(st.products)
  }

  function ActiveProducts(ps: seq<VisaProduct>): (r: seq<VisaProduct>)
    ensures forall p :: p in r <==> p in ps && p.isActive
    ensures |r| <= |ps|
  {
    if |ps| == 0 then []
    else (if ps[0].isActive then [ps[0]] else []) + ActiveProducts(ps[1..])
  }

  /** `products.find(p => p.type === visaType)`. */
  function FindProduct(products: seq<VisaProduct>, visaType: string): (r: Option<VisaProduct>)
    ensures r.Some? ==> r.value in products && r.value.productType == visaType
    ensures r.None? <==> forall k :: 0 <= k < |products| ==> products[k].productType != visaType
  {
    First(products, (p: VisaProduct) => p.productType == visaType)
  }

  // applications

  /** The condition `eq(applications.id, id)`. */
  function HasId(id: string): Application -> bool {
    (a: Application) => a.id == id
  }

  /** `getApplication`. */
  function GetApplication(st: Store, id: string): (r: Option<Application>)
    ensures r.Some? ==> r.value in st.applications && r.value.id == id
    ensures r.None? <==> forall k :: 0 <= k < |st.applications| ==> st.applications[k].id != id
  {
    First(st.applications, HasId(id))
  }

  /** In a valid store the row with a given id is the only one. */
  lemma GetApplicationUnique(st: Store, id: string, k: int)
    requires Valid(st)
    requires 0 <= k < |st.applications| && st.applications[k].id == id
    ensures GetApplication(st, id) == Some(st.applications[k])
  {
    var r := GetApplication(st, id);
    var j :| 0 <= j < |st.applications| && st.applications[j] == r.value && r.value.id == id;
    assert j == k;
  }

  /** `getApplicationByNumber`: numbers compared after lower-casing both sides. */
  function GetApplicationByNumber(st: Store, number: string): (r: Option<Application>)
    ensures r.Some? ==> r.value in st.applications && ToLower(r.value.applicationNumber) == ToLower(number)
    ensures r.None? <==> forall k :: 0 <= k < |st.applications| ==>
      ToLower(st.applications[k].applicationNumber) != ToLower(number)
  {
    First(st.applications, (a: Application) => ToLower(a.applicationNumber) == ToLower(number))
  }

  /** Looking a number up in any mix of cases finds the same row. */
  lemma ByNumberIgnoresCase(st: Store, n1: string, n2: string)
    requires ToLower(n1) == ToLower(n2)
    ensures GetApplicationByNumber(st, n1) == GetApplicationByNumber(st, n2)
  {
    FirstAgrees(st.applications,
      (a: Application) => ToLower(a.applicationNumber) == ToLower(n1),
      (a: Application) => ToLower(a.applicationNumber) == ToLower(n2));
  }

  /** Two conditions that agree on every row find the same first row. */
  lemma {:induction false} FirstAgrees<T>(rows: seq<T>, p: T -> bool, q: T -> bool)
    requires forall k :: 0 <= k < |rows| ==> p(rows[k]) == q(rows[k])
    ensures First(rows, p) == First(rows, q)
    decreases |rows|
  {
    if |rows| > 0 && !p(rows[0]) {
      FirstAgrees(rows[1..], p, q);
    }
  }

  /** `MAX(sequence_number)`, or `None` for an empty table. */
  function MaxSequence(apps: seq<Application>): (r: Option<int>)
    ensures r.None? <==> |apps| == 0
    ensures r.Some? ==> forall k :: 0 <= k < |apps| ==> apps[k].sequenceNumber <= r.value
    ensures r.Some? ==> exists k :: 0 <= k < |apps| && apps[k].sequenceNumber == r.value
  {
    if |apps| == 0 then None
    else
      var rest := MaxSequence(apps[..|apps| - 1]);
      var last := apps[|apps| - 1].sequenceNumber;
      assert forall k :: 0 <= k < |apps| - 1 ==> apps[..|apps| - 1][k] == apps[k];
      if rest.None? || rest.value < last then Some(last) else rest
  }

  /** `getNextApplicationSequence`: `(MAX || 0) + 1`. */
  function NextSequence(st: Store): (r: int)
    ensures |st.applications| == 0 ==> r == 1
    ensures forall k :: 0 <= k < |st.applications| ==> st.applications[k].sequenceNumber < r
    ensures r == 1 || exists k :: 0 <= k < |st.applications| && st.applications[k].sequenceNumber == r - 1
  {
    match MaxSequence(st.applications)
    case None => 1
    case Some(m) => (if m == 0 then 0 else m) + 1
  }

  /** The columns a new application row is given by its caller. */
  datatype ApplicationInsert = ApplicationInsert(
    visaType: string,
    status: Option<Status>,
    firstName: string,
    lastName: string,
    email: string,
    nationality: string,
    applicationNumber: Option<string>,
    sequenceNumber: Option<int>,
    columns: map<string, string>)

  /**
   * The fields of an application number `eVisa-<country>-<yy>-<sequence>`: for a
   * country code without `-`, the text splits at `-` into exactly four fields,
   * and the last is the sequence zero-padded to `width` digits.
   */
  lemma NumberSplit(country: string, year: nat, sequence: nat, width: nat)
    requires '-' !in country
    ensures var parts := Split("eVisa-" + country + "-" + TakeLast(IntToDecimal(year), 2) + "-"
                               + PadStart(IntToDecimal(sequence), width, '0'), '-');
      && parts == ["eVisa", country, TakeLast(NatToDecimal(year), 2), ZeroPad(sequence, width)]
      && AllDigits(parts[3]) && DecimalValue(parts[3]) == sequence
      && |parts[3]| >= width
  {
    var yy := TakeLast(NatToDecimal(year), 2);
    assert IntToDecimal(year) == NatToDecimal(year);
    assert IntToDecimal(sequence) == NatToDecimal(sequence);
    assert AllDigits(yy) by {
      assert forall k :: 0 <= k < |yy| ==> yy[k] == NatToDecimal(year)[|NatToDecimal(year)| - |yy| + k];
    }
    DigitsHaveNoDash(yy, 10);
    DigitsHaveNoDash(ZeroPad(sequence, width), 10);
    assert "eVisa-" + country + "-" == "eVisa" + ['-'] + country + ['-'];
    SplitFour("eVisa", country, yy, ZeroPad(sequence, width), '-');
  }

  /**
   * `eVisa-<country>-<last two digits of the year>-<sequence padded to width>`.
   * For a country code without `-`, the number splits at `-` into its four
   * fields, and its last field reads back as the sequence.
   */
  function ApplicationNumber(country: string, year: int, sequence: int, width: nat): (r: string)
    ensures '-' !in country && year >= 0 && sequence >= 0 ==>
      var parts := Split(r, '-');
      && parts == ["eVisa", country, TakeLast(NatToDecimal(year), 2), ZeroPad(sequence, width)]
      && AllDigits(parts[3]) && DecimalValue(parts[3]) == sequence
      && |parts[3]| >= width
  {
    var r := "eVisa-" + country + "-" + TakeLast(IntToDecimal(year), 2) + "-"
             + PadStart(IntToDecimal(sequence), width, '0');
    if '-' !in country && year >= 0 && sequence >= 0 then
      NumberSplit(country, year, sequence, width);
      r
    else r
  }

  const UnknownCountry: string := "XXX"

  /**
   * The number `createApplication` invents when none is given: unknown country,
   * six-digit sequence. It splits at `-` into `eVisa`, `XXX`, the year's last two
   * digits and the sequence, which reads back.
   */
  function FallbackApplicationNumber(year: int, sequence: int): (r: string)
    ensures year >= 0 && sequence >= 0 ==>
      var parts := Split(r, '-');
      && parts == ["eVisa", UnknownCountry, TakeLast(NatToDecimal(year), 2), ZeroPad(sequence, 6)]
      && AllDigits(parts[3]) && DecimalValue(parts[3]) == sequence
      && |parts[3]| >= 6
  {
    assert '-' !in UnknownCountry;
    ApplicationNumber(UnknownCountry, year, sequence, 6)
  }

  /** The sequence a new row gets: the caller's when it is truthy, the next one otherwise. */
  function ChosenSequence(st: Store, given: Option<int>): (r: int)
    ensures given.Some? && given.value != 0 ==> r == given.value
    ensures (given.None? || given.value == 0) ==> r == NextSequence(st)
  {
    if given.Some? && given.value != 0 then given.value else NextSequence(st)
  }

  predicate IdTaken(st: Store, id: string) {
    exists k :: 0 <= k < |st.applications| && st.applications[k].id == id
  }

  predicate NumberTaken(st: Store, number: string) {
    exists k :: 0 <= k < |st.applications| && st.applications[k].applicationNumber == number
  }

  /**
   * `createApplication`: falsy sequence and number are filled in, the status
   * defaults to `DRAFT`, the payment status to `INITIATED`, and `submittedAt`
   * is set only for a row inserted as `SUBMITTED`.
   */
  function CreateApplication(st: Store, ins: ApplicationInsert, freshId: string, nowMs: int): (r: Result<(Store, Application)>)
    ensures var seqNo := ChosenSequence(st, ins.sequenceNumber);
      var number := if Present(ins.applicationNumber) then ins.applicationNumber.value
                    else FallbackApplicationNumber(CivilFromDays(DayOf(nowMs)).year, seqNo);
      r.Success? <==> !IdTaken(st, freshId) && !NumberTaken(st, number)
    ensures r.Success? ==> var (st', a) := r.value;
      && st' == st.(applications := st.applications + [a])
      && a.id == freshId
      && a.sequenceNumber == ChosenSequence(st, ins.sequenceNumber)
      && (Present(ins.applicationNumber) ==> a.applicationNumber == ins.applicationNumber.value)
      && (!Present(ins.applicationNumber) ==>
            a.applicationNumber == FallbackApplicationNumber(CivilFromDays(DayOf(nowMs)).year, a.sequenceNumber))
      && a.status == ins.status.GetOr(Draft)
      && a.paymentStatus == Some(Initiated)
      && (a.submittedAt.Some? <==> ins.status == Some(Submitted))
      && (a.submittedAt.Some? ==> a.submittedAt.value == nowMs)
      && a.createdAt == nowMs && a.updatedAt == nowMs
      && a.adminNotes.None? && a.rejectionReason.None?
      && a.columns == ins.columns
      && a.firstName == ins.firstName && a.lastName == ins.lastName
      && a.email == ins.email && a.nationality == ins.nationality && a.visaType == ins.visaType
  {
    var seqNo := ChosenSequence(st, ins.sequenceNumber);
    var number := if Present(ins.applicationNumber) then ins.applicationNumber.value
                  else FallbackApplicationNumber(CivilFromDays(DayOf(nowMs)).year, seqNo);
    if IdTaken(st, freshId) || NumberTaken(st, number) then
      Failure("duplicate key value violates unique constraint")
    else
      var a := Application(
        freshId, number, seqNo, ins.visaType, ins.status.GetOr(Draft),
        ins.firstName, ins.lastName, ins.email, ins.nationality,
        Some(Initiated),
        if ins.status == Some(Submitted) then Some(nowMs) else None,
        nowMs, nowMs, None, None, ins.columns);
      Success((st.(applications := st.applications + [a]), a))
  }

  /** Appending a row whose keys are new keeps both keys unique. */
  lemma AppendKeepsUnique<T, K>(rows: seq<T>, row: T, key: T -> K)
    requires Unique(rows, key)
    requires forall k :: 0 <= k < |rows| ==> key(rows[k]) != key(row)
    ensures Unique(rows + [row], key)
  {
    var s := rows + [row];
    forall i, j | 0 <= i < j < |s|
      ensures key(s[i]) != key(s[j])
    {
      assert s[i] == rows[i];
      if j < |rows| {
        assert s[j] == rows[j];
      }
    }
  }

  /** Creating an application keeps the store's keys unique. */
  lemma CreateApplicationKeepsValid(st: Store, ins: ApplicationInsert, freshId: string, nowMs: int)
    requires Valid(st)
    requires CreateApplication(st, ins, freshId, nowMs).Success?
    ensures Valid(CreateApplication(st, ins, freshId, nowMs).value.0)
  {
    var (st', a) := CreateApplication(st, ins, freshId, nowMs).value;
    AppendKeepsUnique(st.applications, a, (a: Application) => a.id);
    AppendKeepsUnique(st.applications, a, (a: Application) => a.applicationNumber);
  }

  /** A row created without a sequence gets one above every stored sequence. */
  lemma CreatedSequenceIsFresh(st: Store, ins: ApplicationInsert, freshId: string, nowMs: int)
    requires CreateApplication(st, ins, freshId, nowMs).Success?
    requires ins.sequenceNumber.None? || ins.sequenceNumber.value == 0
    ensures var a := CreateApplication(st, ins, freshId, nowMs).value.1;
      forall k :: 0 <= k < |st.applications| ==> st.applications[k].sequenceNumber < a.sequenceNumber
  {
  }

  /**
   * The body of an update, as `.set()` sees it: `None` means the key is absent
   * and the column is left alone; for nullable columns `Some(None)` writes
   * `NULL`. In `columns`, a key maps to the new text or to `None` for `NULL`.
   */
  datatype ApplicationPatch = ApplicationPatch(
    applicationNumber: Option<string>,
    sequenceNumber: Option<int>,
    visaType: Option<string>,
    status: Option<Status>,
    firstName: Option<string>,
    lastName: Option<string>,
    email: Option<string>,
    nationality: Option<string>,
    paymentStatus: Option<Option<PaymentStatus>>,
    adminNotes: Option<Option<string>>,
    rejectionReason: Option<Option<string>>,
    columns: map<string, Option<string>>)

  const EmptyPatch := ApplicationPatch(None, None, None, None, None, None, None, None, None, None, None, map[])

  /** The nullable text columns after a patch. */
  function PatchColumns(prev: map<string, string>, patch: map<string, Option<string>>): (r: map<string, string>)
    ensures forall k :: k in patch ==> (k in r <==> patch[k].Some?) && (k in r ==> r[k] == patch[k].value)
    ensures forall k :: k !in patch ==> (k in r <==> k in prev) && (k in r ==> r[k] == prev[k])
  {
    map k | k in prev.Keys + patch.Keys && (k in patch ==> patch[k].Some?) ::
      if k in patch then patch[k].value else prev[k]
  }

  /** `{ ...row, ...data, updatedAt: now }` with undefined keys skipped. */
  function ApplyPatch(a: Application, p: ApplicationPatch, nowMs: int): (r: Application)
    ensures r.id == a.id && r.createdAt == a.createdAt && r.submittedAt == a.submittedAt
    ensures r.updatedAt == nowMs
    ensures r.status == p.status.GetOr(a.status)
    ensures r.applicationNumber == p.applicationNumber.GetOr(a.applicationNumber)
    ensures r.adminNotes == p.adminNotes.GetOr(a.adminNotes)
    ensures r.rejectionReason == p.rejectionReason.GetOr(a.rejectionReason)
    ensures r.paymentStatus == p.paymentStatus.GetOr(a.paymentStatus)
    ensures forall k :: Column(r, k) == if k in p.columns then p.columns[k] else Column(a, k)
  {
    a.(applicationNumber := p.applicationNumber.GetOr(a.applicationNumber),
       sequenceNumber := p.sequenceNumber.GetOr(a.sequenceNumber),
       visaType := p.visaType.GetOr(a.visaType),
       status := p.status.GetOr(a.status),
       firstName := p.firstName.GetOr(a.firstName),
       lastName := p.lastName.GetOr(a.lastName),
       email := p.email.GetOr(a.email),
       nationality := p.nationality.GetOr(a.nationality),
       paymentStatus := p.paymentStatus.GetOr(a.paymentStatus),
       adminNotes := p.adminNotes.GetOr(a.adminNotes),
       rejectionReason := p.rejectionReason.GetOr(a.rejectionReason),
       columns := PatchColumns(a.columns, p.columns),
       updatedAt := nowMs)
  }

  /** An empty body only touches `updatedAt`. */
  lemma EmptyPatchTouchesOnlyUpdatedAt(a: Application, nowMs: int)
    ensures ApplyPatch(a, EmptyPatch, nowMs) == a.(updatedAt := nowMs)
  {
    assert PatchColumns(a.columns, map[]) == a.columns;
  }

  /** Sending the same body twice at the same instant has the effect of sending it once. */
  lemma ApplyPatchIdempotent(a: Application, p: ApplicationPatch, nowMs: int)
    ensures ApplyPatch(ApplyPatch(a, p, nowMs), p, nowMs) == ApplyPatch(a, p, nowMs)
  {
    var once := ApplyPatch(a, p, nowMs);
    assert PatchColumns(once.columns, p.columns) == once.columns;
  }

  /** Every row with id `id` patched, the others as they were. */
  function PatchRows(apps: seq<Application>, id: string, p: ApplicationPatch, nowMs: int): (r: seq<Application>)
    ensures |r| == |apps|
    ensures forall k :: 0 <= k < |apps| ==>
      r[k] == if apps[k].id == id then ApplyPatch(apps[k], p, nowMs) else apps[k]
  {
    seq(|apps|, k requires 0 <= k < |apps| => if apps[k].id == id then ApplyPatch(apps[k], p, nowMs) else apps[k])
  }

  /** Another row already holds the number the patch writes. */
  predicate NumberClash(st: Store, id: string, p: ApplicationPatch) {
    p.applicationNumber.Some? &&
    exists k :: 0 <= k < |st.applications| && st.applications[k].id != id
                && st.applications[k].applicationNumber == p.applicationNumber.value
  }

  /**
   * `updateApplication`: the row with that id gets the patch and a fresh
   * `updatedAt`; no row with that id means nothing is written and the answer is
   * `None`; a number another row holds breaks the `UNIQUE` constraint.
   */
  function UpdateApplication(st: Store, id: string, p: ApplicationPatch, nowMs: int): (r: Result<(Store, Option<Application>)>)
    ensures !IdTaken(st, id) ==> r == Success((st, None))
    ensures IdTaken(st, id) ==> (r.Failure? <==> NumberClash(st, id, p))
    ensures r.Success? && IdTaken(st, id) ==> var (st', row) := r.value;
      && st' == st.(applications := PatchRows(st.applications, id, p, nowMs))
      && GetApplication(st, id).Some?
      && row == Some(ApplyPatch(GetApplication(st, id).value, p, nowMs))
  {
    if !IdTaken(st, id) then Success((st, None))
    else if NumberClash(st, id, p) then Failure("duplicate key value violates unique constraint")
    else
      var st' := st.(applications := PatchRows(st.applications, id, p, nowMs));
      Success((st', Some(ApplyPatch(GetApplication(st, id).value, p, nowMs))))
  }

  /** An update keeps the store's keys unique. */
  lemma UpdateApplicationKeepsValid(st: Store, id: string, p: ApplicationPatch, nowMs: int)
    requires Valid(st)
    requires UpdateApplication(st, id, p, nowMs).Success?
    ensures Valid(UpdateApplication(st, id, p, nowMs).value.0)
  {
    if IdTaken(st, id) {
      var apps := PatchRows(st.applications, id, p, nowMs);
      forall i, j | 0 <= i < j < |apps|
        ensures apps[i].id != apps[j].id && apps[i].applicationNumber != apps[j].applicationNumber
      {
        assert st.applications[i].id != st.applications[j].id;
        assert st.applications[i].applicationNumber != st.applications[j].applicationNumber;
      }
    }
  }

  // visas

  /** `getVisaByApplicationId`. */
  function GetVisaByApplicationId(st: Store, applicationId: string): (r: Option<Visa>)
    ensures r.Some? ==> r.value in st.visas && r.value.applicationId == applicationId
    ensures r.None? <==> forall k :: 0 <= k < |st.visas| ==> st.visas[k].applicationId != applicationId
  {
    First(st.visas, (v: Visa) => v.applicationId == applicationId)
  }

  /** `getVisaByVerificationCode`: exact match. */
  function GetVisaByVerificationCode(st: Store, code: string): (r: Option<Visa>)
    ensures r.Some? ==> r.value in st.visas && r.value.verificationCode == code
    ensures r.None? <==> forall k :: 0 <= k < |st.visas| ==> st.visas[k].verificationCode != code
  {
    First(st.visas, (v: Visa) => v.verificationCode == code)
  }

  /** What a caller hands `createVisa`; every field may be missing. */
  datatype VisaInsert = VisaInsert(
    applicationId: Option<string>,
    visaNumber: Option<string>,
    verificationCode: Option<string>,
    validFrom: Option<string>,
    validTo: Option<string>,
    stayDuration: Option<int>,
    pdfUrl: Option<string>)

  /**
   * `createVisa` as written: its first statement calls the local
   * `generateVisaNumber()` without an argument, and reading `toString` of
   * `undefined` throws before anything is written.
   */
  function CreateVisaAsWritten(st: Store, ins: VisaInsert, freshId: string, nowMs: int): (r: Result<(Store, Visa)>)
    ensures r.Failure?
  {
    Failure("Cannot read properties of undefined (reading 'toString')")
  }

  /** Whatever it is given, the written `createVisa` never stores a visa. */
  lemma CreateVisaAsWrittenNeverStores(st: Store, ins: VisaInsert, freshId: string, nowMs: int)
    requires ins.applicationId.Some? && ins.validFrom.Some? && ins.validTo.Some? && ins.stayDuration.Some?
    requires Present(ins.applicationId) && Present(ins.validFrom) && Present(ins.validTo)
    requires ins.stayDuration.value > 0
    ensures CreateVisaAsWritten(st, ins, freshId, nowMs).Failure?
  {
  }

  /** The falsy-field guard of `createVisa`: any of the four required fields missing, empty or zero. */
  predicate MissingVisaFields(ins: VisaInsert) {
    || !Present(ins.applicationId) || !Present(ins.validFrom) || !Present(ins.validTo)
    || ins.stayDuration.None? || ins.stayDuration.value == 0
  }

  /** The visa would repeat an id, a visa number or a verification code. */
  predicate VisaClash(st: Store, freshId: string, number: string, code: string) {
    exists k :: 0 <= k < |st.visas| &&
      (st.visas[k].id == freshId || st.visas[k].visaNumber == number || st.visas[k].verificationCode == code)
  }

  /**
   * `createVisa` as evidently intended: the caller's visa number and
   * verification code are stored, the falsy-field guard still applies, the
   * `NOT NULL` and `UNIQUE` columns are enforced, and `issuedAt` is now.
   */
  function CreateVisa(st: Store, ins: VisaInsert, freshId: string, nowMs: int): (r: Result<(Store, Visa)>)
    ensures r.Success? <==>
      && !MissingVisaFields(ins) && ins.visaNumber.Some? && ins.verificationCode.Some?
      && !VisaClash(st, freshId, ins.visaNumber.value, ins.verificationCode.value)
    ensures r.Success? ==> var (st', v) := r.value;
      && st' == st.(visas := st.visas + [v])
      && v.id == freshId && v.applicationId == ins.applicationId.value
      && v.visaNumber == ins.visaNumber.value && v.verificationCode == ins.verificationCode.value
      && v.validFrom == ins.validFrom.value && v.validTo == ins.validTo.value
      && v.stayDuration == ins.stayDuration.value && v.stayDuration != 0
      && v.pdfUrl == ins.pdfUrl && v.issuedAt == nowMs
  {
    if MissingVisaFields(ins) then Failure("Missing required visa fields")
    else if ins.visaNumber.None? || ins.verificationCode.None? then
      Failure("null value violates not-null constraint")
    else if VisaClash(st, freshId, ins.visaNumber.value, ins.verificationCode.value) then
      Failure("duplicate key value violates unique constraint")
    else
      var v := Visa(freshId, ins.visaNumber.value, ins.verificationCode.value, ins.applicationId.value,
                    ins.validFrom.value, ins.validTo.value, ins.stayDuration.value, ins.pdfUrl, nowMs);
      Success((st.(visas := st.visas + [v]), v))
  }

  /** Creating a visa keeps the store's keys unique. */
  lemma CreateVisaKeepsValid(st: Store, ins: VisaInsert, freshId: string, nowMs: int)
    requires Valid(st)
    requires CreateVisa(st, ins, freshId, nowMs).Success?
    ensures Valid(CreateVisa(st, ins, freshId, nowMs).value.0)
  {
    var (st', v) := CreateVisa(st, ins, freshId, nowMs).value;
    AppendKeepsUnique(st.visas, v, (v: Visa) => v.id);
    AppendKeepsUnique(st.visas, v, (v: Visa) => v.visaNumber);
    AppendKeepsUnique(st.visas, v, (v: Visa) => v.verificationCode);
  }

  // payments

  /** `getPaymentByApplicationId`. */
  function GetPaymentByApplicationId(st: Store, applicationId: string): (r: Option<Payment>)
    ensures r.Some? ==> r.value in st.payments && r.value.applicationId == applicationId
    ensures r.None? <==> forall k :: 0 <= k < |st.payments| ==> st.payments[k].applicationId != applicationId
  {
    First(st.payments, (p: Payment) => p.applicationId == applicationId)
  }

  datatype PaymentInsert = PaymentInsert(
    applicationId: string,
    provider: string,
    phoneNumber: string,
    amount: int,
    currency: string,
    status: PaymentStatus,
    transactionId: Option<string>,
    paidAt: Option<int>)

  /** `createPayment`: appended with `createdAt` now; fails only on a repeated id. */
  function CreatePayment(st: Store, ins: PaymentInsert, freshId: string, nowMs: int): (r: Result<(Store, Payment)>)
    ensures r.Success? <==> forall k :: 0 <= k < |st.payments| ==> st.payments[k].id != freshId
    ensures r.Success? ==> var (st', p) := r.value;
      && st' == st.(payments := st.payments + [p])
      && p.id == freshId && p.applicationId == ins.applicationId && p.amount == ins.amount
      && p.status == ins.status && p.phoneNumber == ins.phoneNumber && p.provider == ins.provider
      && p.currency == ins.currency && p.transactionId == ins.transactionId && p.paidAt == ins.paidAt
      && p.createdAt == nowMs
  {
    if exists k :: 0 <= k < |st.payments| && st.payments[k].id == freshId then
      Failure("duplicate key value violates unique constraint")
    else
      var p := Payment(freshId, ins.applicationId, ins.provider, ins.phoneNumber, ins.transactionId,
                       ins.amount, ins.currency, ins.status, ins.paidAt, nowMs);
      Success((st.(payments := st.payments + [p]), p))
  }

  /** The keys `updatePayment` may set; `None` leaves a column alone. */
  datatype PaymentPatch = PaymentPatch(
    status: Option<PaymentStatus>,
    transactionId: Option<Option<string>>,
    paidAt: Option<Option<int>>)

  function ApplyPaymentPatch(p: Payment, patch: PaymentPatch): (r: Payment)
    ensures r.id == p.id && r.applicationId == p.applicationId && r.amount == p.amount
    ensures r.createdAt == p.createdAt && r.phoneNumber == p.phoneNumber
    ensures r.status == patch.status.GetOr(p.status)
    ensures r.transactionId == patch.transactionId.GetOr(p.transactionId)
    ensures r.paidAt == patch.paidAt.GetOr(p.paidAt)
  {
    p.(status := patch.status.GetOr(p.status),
       transactionId := patch.transactionId.GetOr(p.transactionId),
       paidAt := patch.paidAt.GetOr(p.paidAt))
  }

  /** `updatePayment`: every row with that id patched; `None` when there is none. */
  function UpdatePayment(st: Store, id: string, patch: PaymentPatch): (r: (Store, Option<Payment>))
    ensures |r.0.payments| == |st.payments|
    ensures r.0 == st.(payments := r.0.payments)
    ensures forall k :: 0 <= k < |st.payments| ==>
      r.0.payments[k] == if st.payments[k].id == id then ApplyPaymentPatch(st.payments[k], patch) else st.payments[k]
    ensures r.1.None? <==> forall k :: 0 <= k < |st.payments| ==> st.payments[k].id != id
    ensures r.1.Some? ==> r.1.value.id == id && r.1.value in r.0.payments
  {
    var ps := seq(|st.payments|, k requires 0 <= k < |st.payments| =>
      if st.payments[k].id == id then ApplyPaymentPatch(st.payments[k], patch) else st.payments[k]);
    (st.(payments := ps), First(ps, (p: Payment) => p.id == id))
  }

  // audit logs

  /** The columns of an audit entry its writer chooses. */
  datatype AuditEntry = AuditEntry(
    actorId: Option<string>,
    actorName: Option<string>,
    action: string,
    entityType: string,
    entityId: Option<string>,
    metadata: Metadata)

  /** `createAuditLog`: appended with `timestamp` now; fails only on a repeated id. */
  function CreateAuditLog(st: Store, e: AuditEntry, freshId: string, nowMs: int): (r: Result<(Store, AuditLog)>)
    ensures r.Success? <==> forall k :: 0 <= k < |st.auditLogs| ==> st.auditLogs[k].id != freshId
    ensures r.Success? ==> var (st', l) := r.value;
      && st' == st.(auditLogs := st.auditLogs + [l])
      && l == AuditLog(freshId, e.actorId, e.actorName, e.action, e.entityType, e.entityId, e.metadata, nowMs)
  {
    if exists k :: 0 <= k < |st.auditLogs| && st.auditLogs[k].id == freshId then
      Failure("duplicate key value violates unique constraint")
    else
      var l := AuditLog(freshId, e.actorId, e.actorName, e.action, e.entityType, e.entityId, e.metadata, nowMs);
      Success((st.(auditLogs := st.auditLogs + [l]), l))
  }

  /** Newest first: timestamps never increase along the list. */
  predicate NewestFirst(logs: seq<AuditLog>) {
    forall i, j :: 0 <= i < j < |logs| ==> logs[i].timestamp >= logs[j].timestamp
  }

  /** Places `l` after the entries at least as new and before the older ones. */
  function InsertByTime(l: AuditLog, sorted: seq<AuditLog>): (r: seq<AuditLog>)
    requires NewestFirst(sorted)
    ensures NewestFirst(r)
    ensures multiset(r) == multiset(sorted) + multiset{l}
    ensures |r| == |sorted| + 1
    ensures r[0] == l || (|sorted| > 0 && r[0] == sorted[0])
    decreases |sorted|
  {
    if |sorted| == 0 || sorted[0].timestamp <= l.timestamp then
      PrependNewest(l, sorted);
      [l] + sorted
    else
      var rest := InsertByTime(l, sorted[1..]);
      assert sorted == [sorted[0]] + sorted[1..];
      assert rest[0] == l || rest[0] == sorted[1];
      PrependNewest(sorted[0], rest);
      [sorted[0]] + rest
  }

  /** An entry at least as new as the head of a newest-first list can go in front of it. */
  lemma PrependNewest(x: AuditLog, rest: seq<AuditLog>)
    requires NewestFirst(rest)
    requires |rest| == 0 || x.timestamp >= rest[0].timestamp
    ensures NewestFirst([x] + rest)
  {
    var r := [x] + rest;
    forall i, j | 0 <= i < j < |r|
      ensures r[i].timestamp >= r[j].timestamp
    {
      if i == 0 {
        assert r[j] == rest[j - 1];
      } else {
        assert r[i] == rest[i - 1] && r[j] == rest[j - 1];
      }
    }
  }

  /** The audit log ordered newest first. */
  function SortNewestFirst(logs: seq<AuditLog>): (r: seq<AuditLog>)
    ensures NewestFirst(r)
    ensures multiset(r) == multiset(logs)
    decreases |logs|
  {
    if |logs| == 0 then []
    else
      assert logs == [logs[0]] + logs[1..];
      InsertByTime(logs[0], SortNewestFirst(logs[1..]))
  }

  /**
   * `getAuditLogs(entityType, entityId)`: every entry, newest first. The two
   * filter arguments are accepted and never applied.
   */
  function GetAuditLogs(st: Store, entityType: Option<string>, entityId: Option<string>): (r: seq<AuditLog>)
    ensures NewestFirst(r)
    ensures multiset(r) == multiset(st.auditLogs)
  {
    SortNewestFirst(st.auditLogs)
  }

  // stats

  /** The positions of the rows with status `s`. */
  function RowsWithStatus(apps: seq<Application>, s: Status): set<int> {
    set k | 0 <= k < |apps| && apps[k].status == s
  }

  /** The number of rows with status `s`: the size of `filter(a => a.status === s)`. */
  function CountStatus(apps: seq<Application>, s: Status): (n: nat)
    ensures n == |RowsWithStatus(apps, s)|
    ensures n <= |apps|
    ensures n == 0 <==> forall k :: 0 <= k < |apps| ==> apps[k].status != s
    decreases |apps|
  {
    if |apps| == 0 then 0
    else
      var init := apps[..|apps| - 1];
      assert forall k :: 0 <= k < |init| ==> init[k] == apps[k];
      RowsWithStatusStep(apps, s);
      CountStatus(init, s) + (if apps[|apps| - 1].status == s then 1 else 0)
  }

  /** Adding a row adds its position to the set of its status and to no other. */
  lemma RowsWithStatusStep(apps: seq<Application>, s: Status)
    requires |apps| > 0
    ensures var init := apps[..|apps| - 1];
      |RowsWithStatus(apps, s)|
      == |RowsWithStatus(init, s)| + (if apps[|apps| - 1].status == s then 1 else 0)
  {
    var init := apps[..|apps| - 1];
    var last := |apps| - 1;
    var before := RowsWithStatus(init, s);
    var after := RowsWithStatus(apps, s);
    assert forall k :: k in before <==> k in after && k != last;
    if apps[last].status == s {
      assert after == before + {last};
    } else {
      assert after == before;
    }
  }

  /** Every row has exactly one of the nine statuses, so the nine counts add up to the total. */
  lemma {:induction false} CountsPartition(apps: seq<Application>)
    ensures CountStatus(apps, Draft) + CountStatus(apps, Submitted) + CountStatus(apps, UnderReview)
          + CountStatus(apps, NeedInfo) + CountStatus(apps, Approved) + CountStatus(apps, Rejected)
          + CountStatus(apps, Issued) + CountStatus(apps, Expired) + CountStatus(apps, Revoked) == |apps|
    decreases |apps|
  {
    if |apps| > 0 {
      var init := apps[..|apps| - 1];
      CountsPartition(init);
      var last := apps[|apps| - 1].status;
      assert CountStatus(apps, last) == CountStatus(init, last) + 1;
      forall s: Status | s != last
        ensures CountStatus(apps, s) == CountStatus(init, s)
      {
      }
      match last
      case Draft =>
      case Submitted =>
      case UnderReview =>
      case NeedInfo =>
      case Approved =>
      case Rejected =>
      case Issued =>
      case Expired =>
      case Revoked =>
    }
  }

  datatype Stats = Stats(total: nat, submitted: nat, underReview: nat, approved: nat, rejected: nat, issued: nat)

  /**
   * `getStats`: the row count and five per-status counts. Drafts, requests for
   * information, expired and revoked visas are counted only in the total.
   */
  function GetStats(st: Store): (r: Stats)
    ensures r.total == |st.applications|
    ensures r.submitted + r.underReview + r.approved + r.rejected + r.issued
          + CountStatus(st.applications, Draft) + CountStatus(st.applications, NeedInfo)
          + CountStatus(st.applications, Expired) + CountStatus(st.applications, Revoked) == r.total
    ensures r.submitted + r.underReview + r.approved + r.rejected + r.issued <= r.total
    ensures r.submitted == |RowsWithStatus(st.applications, Submitted)|
    ensures r.underReview == |RowsWithStatus(st.applications, UnderReview)|
    ensures r.approved == |RowsWithStatus(st.applications, Approved)|
    ensures r.rejected == |RowsWithStatus(st.applications, Rejected)|
    ensures r.issued == |RowsWithStatus(st.applications, Issued)|
  {
    var apps := st.applications;
    CountsPartition(apps);
    Stats(|apps|, CountStatus(apps, Submitted), CountStatus(apps, UnderReview),
          CountStatus(apps, Approved), CountStatus(apps, Rejected), CountStatus(apps, Issued))
  }
}
