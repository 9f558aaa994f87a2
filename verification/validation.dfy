/**
 * The shared validators: the date helpers, the field rules of the
 * application schema with its cross-field rule, the pre-approval check and
 * the error formatter.
 *
 * Dates are day numbers and `now` is a millisecond timestamp, both in UTC. A
 * date field the schema coerces is `None` when the input is missing or is not a
 * date.
 */
module Validation {
  import opened Wrappers
  import opened Text
  import opened Calendar
  import opened Schema
  import opened Records

  /** `addDays(date, n)` on a timestamp: `n` whole days later. */
  function AddDays(ms: int, n: int): (r: int)
    ensures DayOf(r) == DayOf(ms) + n
    ensures r % MsPerDay == ms % MsPerDay
  {
    ms + n * MsPerDay
  }

  /**
   * `getAge(birth)` on the day `today`: the difference of the years, less one
   * when this year's birthday (same month and day) is still to come. The age is
   * the number of the last birthday that has come: the `r`-th has, the next has not.
   */
  function GetAge(today: int, birth: int): (r: int)
    ensures var b := CivilFromDays(birth);
      && CivilLeq(Civil(b.year + r, b.month, b.day), CivilFromDays(today))
      && !CivilLeq(Civil(b.year + r + 1, b.month, b.day), CivilFromDays(today))
  {
    var t := CivilFromDays(today);
    var b := CivilFromDays(birth);
    var age := t.year - b.year;
    var monthDiff := t.month - b.month;
    if monthDiff < 0 || (monthDiff == 0 && t.day < b.day) then age - 1 else age
  }

  /** Someone is at least `n` years old exactly when their `n`-th birthday has come. */
  lemma AgeAtLeast(today: int, birth: int, n: int)
    ensures var b := CivilFromDays(birth);
      GetAge(today, birth) >= n <==> CivilLeq(Civil(b.year + n, b.month, b.day), CivilFromDays(today))
  {
  }

  /** Age never decreases as time passes. */
  lemma AgeMonotone(today1: int, today2: int, birth: int)
    requires today1 <= today2
    ensures GetAge(today1, birth) <= GetAge(today2, birth)
  {
    CivilOrder(today1, today2);
  }

  /** The messages of the application schema, one constructor per text. */
  datatype Message =
    | InvalidDate
    | InstitutionCodeTooLong | InstitutionCodeChars
    | ArrivalTooEarly | ArrivalTooLate
    | PassportNumberRequired | PassportNumberTooShort | PassportNumberTooLong | PassportNumberChars
    | BirthNotPast | TooYoung
    | PlaceOfBirthRequired | PlaceOfBirthTooShort
    | CountryRequired | CountryInvalid
    | PhoneRequired | PhoneTooShort | PhoneFormat
    | GenderRequired | InvalidGender(received: string)
    | PurposeRequired | PurposeTooShort | PurposeTooLong
    | PassportCoverage

  /** The text of each message, as the client receives it. */
  function MessageText(m: Message): string {
    match m
    case InvalidDate => "Invalid date"
    case InstitutionCodeTooLong => "Le code institution ne peut pas dépasser 50 caractères"
    case InstitutionCodeChars => "Le code institution ne peut contenir que des lettres, chiffres et tirets"
    case ArrivalTooEarly => "La date d'entrée doit être au moins demain"
    case ArrivalTooLate => "La date d'entrée ne peut pas dépasser 90 jours à partir d'aujourd'hui"
    case PassportNumberRequired => "Le numéro de passeport est obligatoire"
    case PassportNumberTooShort => "Le numéro de passeport doit contenir au moins 6 caractères"
    case PassportNumberTooLong => "Le numéro de passeport ne peut pas dépasser 15 caractères"
    case PassportNumberChars => "Le numéro de passeport ne peut contenir que des lettres et chiffres (sans espaces)"
    case BirthNotPast => "La date de naissance doit être dans le passé"
    case TooYoung => "Vous devez avoir au moins 18 ans pour faire une demande"
    case PlaceOfBirthRequired => "Le lieu de naissance est obligatoire"
    case PlaceOfBirthTooShort => "Le lieu de naissance doit contenir au moins 2 caractères"
    case CountryRequired => "Le pays de provenance est obligatoire"
    case CountryInvalid => "Veuillez sélectionner un pays valide"
    case PhoneRequired => "Le numéro de téléphone est obligatoire"
    case PhoneTooShort => "Le numéro de téléphone doit contenir au moins 8 chiffres"
    case PhoneFormat => "Format de téléphone invalide"
    case GenderRequired => "Le genre est obligatoire"
    case PurposeRequired => "La raison du voyage est obligatoire"
    case PurposeTooShort => "La raison du voyage doit contenir au moins 10 caractères"
    case PurposeTooLong => "La raison du voyage ne peut pas dépasser 500 caractères"
    case InvalidGender(g) => "Invalid enum value. Expected 'M' | 'F', received '" + g + "'"
    case PassportCoverage => "La validité du passeport doit dépasser de 6 mois la date d'entrée prévue"
  }

  /** One problem zod reports: the path of the offending field and its message. */
  datatype Issue = Issue(path: seq<string>, message: Message)

  /** A single-field issue when `fails`, nothing otherwise. */
  function Check(fails: bool, field: string, message: Message): (r: seq<Issue>)
    ensures |r| <= 1
    ensures r == [] <==> !fails
    ensures forall k :: 0 <= k < |r| ==> r[k].path == [field]
  {
    if fails then [Issue([field], message)] else []
  }

  /** The issue of the cross-field rule. */
  const CrossIssue: Issue := Issue(["passportExpiry"], PassportCoverage)

  /** The field checks never produce the cross-field issue. */
  predicate NoCrossIssue(s: seq<Issue>) {
    CrossIssue !in s
  }

  /** The fields of `applicationValidationSchema` as the client sends them. */
  datatype ApplicationForm = ApplicationForm(
    institutionCode: Option<string>,
    arrivalDate: Option<int>,
    passportNumber: Option<string>,
    passportExpiry: Option<int>,
    dateOfBirth: Option<int>,
    placeOfBirth: Option<string>,
    countryOfOrigin: Option<string>,
    phone: Option<string>,
    gender: Option<string>,
    purposeOfVisit: Option<string>)

  // institutionCode

  predicate InstitutionCodeChar(c: char) {
    IsAlnum(c) || c == '-'
  }

  predicate AllInstitutionCodeChars(s: string) {
    forall k :: 0 <= k < |s| ==> InstitutionCodeChar(s[k])
  }

  /** Absent, or at most 50 letters, digits and hyphens (the empty code included). */
  predicate InstitutionCodeValid(o: Option<string>) {
    o.None? || (|o.value| <= 50 && AllInstitutionCodeChars(o.value))
  }

  function InstitutionCodeIssues(o: Option<string>): (r: seq<Issue>)
    ensures NoCrossIssue(r)
    ensures r == [] <==> InstitutionCodeValid(o)
    ensures |r| <= 2
  {
    match o
    case None => []
    case Some(s) =>
      Check(|s| > 50, "institutionCode", InstitutionCodeTooLong)
      + Check(!AllInstitutionCodeChars(s), "institutionCode",
              InstitutionCodeChars)
  }

  // arrivalDate

  /**
   * The arrival rule as written: the arrival day's UTC midnight must be at least
   * `now` plus one day, and at most `now` plus 90 days.
   */
  predicate ArrivalDateValidAsWritten(day: int, nowMs: int) {
    Midnight(day) >= AddDays(nowMs, 1) && Midnight(day) <= AddDays(nowMs, 90)
  }

  /** The arrival rule by calendar day: from tomorrow up to 90 days after today. */
  predicate ArrivalDayValid(day: int, nowMs: int) {
    DayOf(nowMs) + 1 <= day <= DayOf(nowMs) + 90
  }

  /**
   * As written, tomorrow is refused at any moment after midnight, although the
   * message says the date must be "at least tomorrow".
   */
  lemma ArrivalTomorrowRefused(today: int, msIntoDay: int)
    requires 0 < msIntoDay < MsPerDay
    ensures var nowMs := Midnight(today) + msIntoDay;
      !ArrivalDateValidAsWritten(today + 1, nowMs) && ArrivalDayValid(today + 1, nowMs)
  {
  }

  /**
   * The written rule and the calendar-day rule agree on every day but tomorrow,
   * and on tomorrow too when `now` is exactly midnight; the upper bound is the
   * same in both.
   */
  lemma ArrivalRulesAgree(day: int, nowMs: int)
    ensures ArrivalDateValidAsWritten(day, nowMs) ==> ArrivalDayValid(day, nowMs)
    ensures day != DayOf(nowMs) + 1 ==> (ArrivalDateValidAsWritten(day, nowMs) <==> ArrivalDayValid(day, nowMs))
    ensures nowMs % MsPerDay == 0 ==> (ArrivalDateValidAsWritten(day, nowMs) <==> ArrivalDayValid(day, nowMs))
  {
  }

  /**
   * The corrected issues for the arrival date, judged by calendar day: "at least tomorrow"
   * and "at most 90 days from today" are separate refinements, so either can be
   * reported; neither runs on an invalid date.
   */
  function ArrivalDateIssues(o: Option<int>, nowMs: int): (r: seq<Issue>)
    ensures NoCrossIssue(r)
    ensures r == [] <==> (o.Some? && ArrivalDayValid(o.value, nowMs))
    ensures |r| <= 1
  {
    match o
    case None => [Issue(["arrivalDate"], InvalidDate)]
    case Some(d) =>
      Check(d < DayOf(nowMs) + 1, "arrivalDate", ArrivalTooEarly)
      + Check(d > DayOf(nowMs) + 90, "arrivalDate",
              ArrivalTooLate)
  }

  /**
   * The issues for the arrival date as the schema raises them: "at least
   * tomorrow" when UTC midnight of the day is before `now` plus one day, "at
   * most 90 days" when it is after `now` plus 90 days.
   */
  function ArrivalDateIssuesAsWritten(o: Option<int>, nowMs: int): (r: seq<Issue>)
    ensures NoCrossIssue(r)
    ensures r == [] <==> (o.Some? && ArrivalDateValidAsWritten(o.value, nowMs))
    ensures |r| <= 1
  {
    match o
    case None => [Issue(["arrivalDate"], InvalidDate)]
    case Some(d) =>
      Check(Midnight(d) < AddDays(nowMs, 1), "arrivalDate", ArrivalTooEarly)
      + Check(Midnight(d) > AddDays(nowMs, 90), "arrivalDate",
              ArrivalTooLate)
  }

  /**
   * The schema's arrival issues and the calendar-day ones: the schema never
   * accepts a day the calendar rule refuses, and the two lists are the same
   * for every arrival but tomorrow.
   */
  lemma ArrivalIssuesAgree(o: Option<int>, nowMs: int)
    ensures ArrivalDateIssuesAsWritten(o, nowMs) == [] ==> ArrivalDateIssues(o, nowMs) == []
    ensures o != Some(DayOf(nowMs) + 1) ==> ArrivalDateIssuesAsWritten(o, nowMs) == ArrivalDateIssues(o, nowMs)
  {
    if o.Some? {
      var d := o.value;
      DayBounds(d, nowMs);
    }
  }

  /** How UTC midnight of `d` compares with `now` plus `n` days, for the two bounds of the arrival rule. */
  lemma DayBounds(d: int, nowMs: int)
    ensures Midnight(d) < AddDays(nowMs, 1) <==> d < DayOf(nowMs) + 1 || (d == DayOf(nowMs) + 1 && nowMs % MsPerDay != 0)
    ensures Midnight(d) > AddDays(nowMs, 90) <==> d > DayOf(nowMs) + 90
  {
  }

  // passportNumber

  /** Six to fifteen ASCII letters and digits (`min(6)`, `max(15)` and `[A-Z0-9]+`). */
  predicate PassportNumberValid(o: Option<string>) {
    o.Some? && 6 <= |o.value| <= 15 && AllAlnum(o.value)
  }

  function PassportNumberIssues(o: Option<string>): (r: seq<Issue>)
    ensures NoCrossIssue(r)
    ensures r == [] <==> PassportNumberValid(o)
    ensures |r| <= 2
  {
    match o
    case None => [Issue(["passportNumber"], PassportNumberRequired)]
    case Some(s) =>
      Check(|s| < 6, "passportNumber", PassportNumberTooShort)
      + Check(|s| > 15, "passportNumber", PassportNumberTooLong)
      + Check(|s| == 0 || !AllAlnum(s), "passportNumber",
              PassportNumberChars)
  }

  /** `[A-Z0-9]+` needs one character, so the empty number fails both the length and the pattern. */
  lemma EmptyPassportNumberIssues()
    ensures PassportNumberIssues(Some("")) ==
      [Issue(["passportNumber"], PassportNumberTooShort), Issue(["passportNumber"], PassportNumberChars)]
  {
  }

  // passportExpiry

  function PassportExpiryIssues(o: Option<int>): (r: seq<Issue>)
    ensures NoCrossIssue(r)
    ensures r == [] <==> o.Some?
  {
    if o.None? then [Issue(["passportExpiry"], InvalidDate)] else []
  }

  // dateOfBirth

  /** Born before now and at least 18 years old today. */
  predicate DateOfBirthValid(o: Option<int>, nowMs: int) {
    o.Some? && Midnight(o.value) < nowMs && GetAge(DayOf(nowMs), o.value) >= 18
  }

  function DateOfBirthIssues(o: Option<int>, nowMs: int): (r: seq<Issue>)
    ensures NoCrossIssue(r)
    ensures r == [] <==> DateOfBirthValid(o, nowMs)
    ensures |r| <= 2
  {
    match o
    case None => [Issue(["dateOfBirth"], InvalidDate)]
    case Some(d) =>
      Check(!(Midnight(d) < nowMs), "dateOfBirth", BirthNotPast)
      + Check(GetAge(DayOf(nowMs), d) < 18, "dateOfBirth",
              TooYoung)
  }

  /** A required text field with a minimum length and nothing else. */
  function MinLengthIssues(o: Option<string>, field: string, min: nat, required: Message, short: Message): (r: seq<Issue>)
    requires field != "passportExpiry"
    ensures NoCrossIssue(r)
    ensures r == [] <==> (o.Some? && |o.value| >= min)
    ensures |r| <= 1
  {
    match o
    case None => [Issue([field], required)]
    case Some(s) => Check(|s| < min, field, short)
  }

  // phone

  predicate PhoneChar(c: char) {
    IsDigit(c) || IsSpace(c) || c == '-' || c == '(' || c == ')'
  }

  predicate AllPhoneChars(s: string) {
    forall k :: 0 <= k < |s| ==> PhoneChar(s[k])
  }

  /** `/^\+?[0-9\s-()]+$/`: an optional leading `+`, then at least one digit, space, hyphen or parenthesis. */
  predicate PhonePattern(s: string) {
    || (|s| >= 1 && AllPhoneChars(s))
    || (|s| >= 2 && s[0] == '+' && AllPhoneChars(s[1..]))
  }

  predicate PhoneValid(o: Option<string>) {
    o.Some? && |o.value| >= 8 && PhonePattern(o.value)
  }

  function PhoneIssues(o: Option<string>): (r: seq<Issue>)
    ensures NoCrossIssue(r)
    ensures r == [] <==> PhoneValid(o)
  {
    match o
    case None => [Issue(["phone"], PhoneRequired)]
    case Some(s) =>
      Check(|s| < 8, "phone", PhoneTooShort)
      + Check(!PhonePattern(s), "phone", PhoneFormat)
  }

  // gender

  const FormGenders: seq<string> := ["M", "F"]

  function GenderIssues(o: Option<string>): (r: seq<Issue>)
    ensures NoCrossIssue(r)
    ensures r == [] <==> (o.Some? && o.value in FormGenders)
    ensures |r| <= 1
  {
    match o
    case None => [Issue(["gender"], GenderRequired)]
    case Some(g) =>
      Check(g !in FormGenders, "gender", InvalidGender(g))
  }

  /** The form's `M`/`F` and the wizard's `male`/`female`/`other` share no value. */
  lemma GenderVocabulariesDisjoint(g: string)
    ensures !(g in FormGenders && g in PersonalGenders)
  {
  }

  // purposeOfVisit

  predicate PurposeValid(o: Option<string>) {
    o.Some? && 10 <= |o.value| <= 500
  }

  function PurposeIssues(o: Option<string>): (r: seq<Issue>)
    ensures NoCrossIssue(r)
    ensures r == [] <==> PurposeValid(o)
    ensures |r| <= 1
  {
    match o
    case None => [Issue(["purposeOfVisit"], PurposeRequired)]
    case Some(s) =>
      Check(|s| < 10, "purposeOfVisit", PurposeTooShort)
      + Check(|s| > 500, "purposeOfVisit", PurposeTooLong)
  }

  // the cross-field rule

  /** The passport expires strictly after the day six months past arrival. */
  predicate PassportCoversStay(arrival: int, expiry: int) {
    expiry > AddMonths(arrival, 6)
  }

  /**
   * No field failed on its type: the dates are dates, the required strings are
   * there and the gender is one of the enum values. Only then does zod run the
   * cross-field refinement.
   */
  predicate WellTyped(f: ApplicationForm) {
    && f.arrivalDate.Some? && f.passportNumber.Some? && f.passportExpiry.Some?
    && f.dateOfBirth.Some? && f.placeOfBirth.Some? && f.countryOfOrigin.Some?
    && f.phone.Some? && f.gender.Some? && f.gender.value in FormGenders
    && f.purposeOfVisit.Some?
  }

  /** The ten fields of the form. */
  datatype Field =
    | InstitutionCode | ArrivalDate | PassportNumber | PassportExpiry | DateOfBirth
    | PlaceOfBirth | CountryOfOrigin | Phone | Gender | PurposeOfVisit

  /** The fields in the order the schema declares them, which is the order of their issues. */
  const FieldOrder: seq<Field> :=
    [InstitutionCode, ArrivalDate, PassportNumber, PassportExpiry, DateOfBirth,
     PlaceOfBirth, CountryOfOrigin, Phone, Gender, PurposeOfVisit]

  lemma FieldOrderComplete()
    ensures forall fld :: fld in FieldOrder
  {
    forall fld ensures fld in FieldOrder {
      match fld
      case InstitutionCode => assert FieldOrder[0] == fld;
      case ArrivalDate => assert FieldOrder[1] == fld;
      case PassportNumber => assert FieldOrder[2] == fld;
      case PassportExpiry => assert FieldOrder[3] == fld;
      case DateOfBirth => assert FieldOrder[4] == fld;
      case PlaceOfBirth => assert FieldOrder[5] == fld;
      case CountryOfOrigin => assert FieldOrder[6] == fld;
      case Phone => assert FieldOrder[7] == fld;
      case Gender => assert FieldOrder[8] == fld;
      case PurposeOfVisit => assert FieldOrder[9] == fld;
    }
  }

  /** The rule of one field. */
  predicate FieldValid(f: ApplicationForm, nowMs: int, fld: Field) {
    match fld
    case InstitutionCode => InstitutionCodeValid(f.institutionCode)
    case ArrivalDate => f.arrivalDate.Some? && ArrivalDateValidAsWritten(f.arrivalDate.value, nowMs)
    case PassportNumber => PassportNumberValid(f.passportNumber)
    case PassportExpiry => f.passportExpiry.Some?
    case DateOfBirth => DateOfBirthValid(f.dateOfBirth, nowMs)
    case PlaceOfBirth => f.placeOfBirth.Some? && |f.placeOfBirth.value| >= 2
    case CountryOfOrigin => f.countryOfOrigin.Some? && |f.countryOfOrigin.value| >= 2
    case Phone => PhoneValid(f.phone)
    case Gender => f.gender.Some? && f.gender.value in FormGenders
    case PurposeOfVisit => PurposeValid(f.purposeOfVisit)
  }

  /** The issues of one field. */
  function IssuesOf(f: ApplicationForm, nowMs: int, fld: Field): (r: seq<Issue>)
    ensures NoCrossIssue(r)
    ensures r == [] <==> FieldValid(f, nowMs, fld)
  {
    match fld
    case InstitutionCode => InstitutionCodeIssues(f.institutionCode)
    case ArrivalDate => ArrivalDateIssuesAsWritten(f.arrivalDate, nowMs)
    case PassportNumber => PassportNumberIssues(f.passportNumber)
    case PassportExpiry => PassportExpiryIssues(f.passportExpiry)
    case DateOfBirth => DateOfBirthIssues(f.dateOfBirth, nowMs)
    case PlaceOfBirth =>
      MinLengthIssues(f.placeOfBirth, "placeOfBirth", 2, PlaceOfBirthRequired,
                      PlaceOfBirthTooShort)
    case CountryOfOrigin =>
      MinLengthIssues(f.countryOfOrigin, "countryOfOrigin", 2, CountryRequired,
                      CountryInvalid)
    case Phone => PhoneIssues(f.phone)
    case Gender => GenderIssues(f.gender)
    case PurposeOfVisit => PurposeIssues(f.purposeOfVisit)
  }

  /** The issues of `fields`, one field after the other. */
  function IssuesOfAll(f: ApplicationForm, nowMs: int, fields: seq<Field>): (r: seq<Issue>)
    ensures NoCrossIssue(r)
    ensures r == [] <==> forall k :: 0 <= k < |fields| ==> FieldValid(f, nowMs, fields[k])
  {
    if |fields| == 0 then []
    else
      var rest := IssuesOfAll(f, nowMs, fields[1..]);
      assert forall k :: 1 <= k < |fields| ==> fields[k] == fields[1..][k - 1];
      IssuesOf(f, nowMs, fields[0]) + rest
  }

  /** Every field rule. */
  predicate FieldsValid(f: ApplicationForm, nowMs: int) {
    forall fld :: FieldValid(f, nowMs, fld)
  }

  /** The issues of the ten fields, in the order the schema declares them. */
  function FieldIssues(f: ApplicationForm, nowMs: int): (r: seq<Issue>)
    ensures NoCrossIssue(r)
    ensures r == [] <==> FieldsValid(f, nowMs)
  {
    FieldsInOrder(f, nowMs);
    IssuesOfAll(f, nowMs, FieldOrder)
  }

  /** Every field rule holds exactly when the rule of each field in `FieldOrder` does. */
  lemma FieldsInOrder(f: ApplicationForm, nowMs: int)
    ensures FieldsValid(f, nowMs) <==> forall k :: 0 <= k < |FieldOrder| ==> FieldValid(f, nowMs, FieldOrder[k])
  {
    if forall k :: 0 <= k < |FieldOrder| ==> FieldValid(f, nowMs, FieldOrder[k]) {
      FieldOrderComplete();
      forall fld ensures FieldValid(f, nowMs, fld) {
        assert fld in FieldOrder;
        var k :| 0 <= k < |FieldOrder| && FieldOrder[k] == fld;
      }
    }
  }


  /** Every rule of the form: the field rules and the cross-field rule. */
  predicate FormValid(f: ApplicationForm, nowMs: int) {
    && FieldsValid(f, nowMs) && f.arrivalDate.Some? && f.passportExpiry.Some?
    && PassportCoversStay(f.arrivalDate.value, f.passportExpiry.value)
  }

  /**
   * `applicationSchemaWithCrossValidation`: the field issues in field order,
   * then the cross-field issue on `passportExpiry` when every field is
   * well typed and the passport does not cover six months past arrival.
   */
  function ValidateApplication(f: ApplicationForm, nowMs: int): (r: seq<Issue>)
    ensures r == [] <==> FormValid(f, nowMs)
    ensures CrossIssue in r
        <==> WellTyped(f) && !PassportCoversStay(f.arrivalDate.value, f.passportExpiry.value)
  {
    var fields := FieldIssues(f, nowMs);
    var cross := CrossIssues(f);
    FieldsValidWellTyped(f, nowMs);
    var wellTyped := WellTyped(f);
    IssuesConcat(fields, cross, FieldsValid(f, nowMs), wellTyped,
                 wellTyped && PassportCoversStay(f.arrivalDate.value, f.passportExpiry.value));
    fields + cross
  }

  /**
   * A form filled in after midnight with tomorrow as arrival day is refused:
   * its arrival field reports "at least tomorrow" and the schema fails.
   */
  lemma TomorrowArrivalRefused(f: ApplicationForm, nowMs: int)
    requires nowMs % MsPerDay != 0
    requires f.arrivalDate == Some(DayOf(nowMs) + 1)
    ensures IssuesOf(f, nowMs, ArrivalDate) == [Issue(["arrivalDate"], ArrivalTooEarly)]
    ensures ValidateApplication(f, nowMs) != []
  {
    DayBounds(DayOf(nowMs) + 1, nowMs);
    assert !FieldValid(f, nowMs, ArrivalDate);
  }

  /** The bookkeeping of `ValidateApplication`, over the truth values of its rules. */
  lemma IssuesConcat(fields: seq<Issue>, cross: seq<Issue>, fieldsValid: bool, wellTyped: bool, covers: bool)
    requires fields == [] <==> fieldsValid
    requires NoCrossIssue(fields)
    requires cross == [] || cross == [CrossIssue]
    requires cross != [] <==> wellTyped && !covers
    requires fieldsValid ==> wellTyped
    ensures fields + cross == [] <==> fieldsValid && covers
    ensures CrossIssue in fields + cross <==> wellTyped && !covers
  {
    assert |fields + cross| == |fields| + |cross|;
  }

  /** The cross-field refinement alone: its one issue, raised on well-typed input only. */
  function CrossIssues(f: ApplicationForm): (r: seq<Issue>)
    ensures r == [] || r == [CrossIssue]
    ensures r != [] <==> WellTyped(f) && !PassportCoversStay(f.arrivalDate.value, f.passportExpiry.value)
  {
    if WellTyped(f) && !PassportCoversStay(f.arrivalDate.value, f.passportExpiry.value)
    then [CrossIssue] else []
  }

  /** Input that passes every field rule is well typed. */
  lemma FieldsValidWellTyped(f: ApplicationForm, nowMs: int)
    ensures FieldsValid(f, nowMs) ==> WellTyped(f)
  {
    if FieldsValid(f, nowMs) {
      assert FieldValid(f, nowMs, ArrivalDate) && FieldValid(f, nowMs, PassportNumber);
      assert FieldValid(f, nowMs, PassportExpiry) && FieldValid(f, nowMs, DateOfBirth);
      assert FieldValid(f, nowMs, PlaceOfBirth) && FieldValid(f, nowMs, CountryOfOrigin);
      assert FieldValid(f, nowMs, Phone) && FieldValid(f, nowMs, Gender);
      assert FieldValid(f, nowMs, PurposeOfVisit);
    }
  }

  /** The key `formatValidationErrors` files an issue under: its path joined with dots. */
  function PathKey(i: Issue): string {
    JoinWith(i.path, ".")
  }

  /** Each issue as the key/value pair `formatValidationErrors` assigns. */
  function IssuePairs(issues: seq<Issue>): (r: seq<(string, string)>)
    ensures |r| == |issues|
    ensures forall i :: 0 <= i < |issues| ==> r[i] == (PathKey(issues[i]), MessageText(issues[i].message))
  {
    seq(|issues|, i requires 0 <= i < |issues| => (PathKey(issues[i]), MessageText(issues[i].message)))
  }

  /**
   * `formatValidationErrors`: one entry per path; when several issues share a
   * path, the last one's message is kept.
   */
  function FormatValidationErrors(issues: seq<Issue>): (r: map<string, string>)
    ensures forall k :: k in r <==> exists i :: 0 <= i < |issues| && PathKey(issues[i]) == k
    ensures forall i :: 0 <= i < |issues| && LastForPath(issues, i) ==> r[PathKey(issues[i])] == MessageText(issues[i].message)
  {
    var pairs := IssuePairs(issues);
    assert forall i :: 0 <= i < |issues| && LastForPath(issues, i) ==> LastFor(pairs, i);
    AssignAll(map[], pairs)
  }

  /** No later issue in `issues` has the same path as issue `i`. */
  predicate LastForPath(issues: seq<Issue>, i: int)
    requires 0 <= i < |issues|
  {
    forall j :: i < j < |issues| ==> PathKey(issues[j]) != PathKey(issues[i])
  }

  /** The result of `validateBeforeApproval`. */
  datatype ApprovalCheck = ApprovalCheck(valid: bool, errors: seq<string>)

  /** The five checks of `validateBeforeApproval`, in the order they run. */
  datatype ApprovalError =
    | MissingPhoto | MissingPassportCopy | PaymentNotConfirmed | PassportTooShort | ArrivalPassed

  /** The text each check appends. */
  function ApprovalMessage(e: ApprovalError): string {
    match e
    case MissingPhoto => "Photo du demandeur manquante"
    case MissingPassportCopy => "Copie du passeport manquante"
    case PaymentNotConfirmed => "Le paiement n'a pas été confirmé"
    case PassportTooShort => "La validité du passeport doit dépasser de 6 mois la date d'entrée"
    case ArrivalPassed => "La date d'entrée est déjà passée"
  }

  /** Distinct checks append distinct texts, so the texts name the failed checks. */
  lemma ApprovalMessagesDistinct(e1: ApprovalError, e2: ApprovalError)
    ensures ApprovalMessage(e1) == ApprovalMessage(e2) ==> e1 == e2
  {
  }

  /** The position of a check in the order they run. */
  function ApprovalRank(e: ApprovalError): int {
    match e
    case MissingPhoto => 0
    case MissingPassportCopy => 1
    case PaymentNotConfirmed => 2
    case PassportTooShort => 3
    case ArrivalPassed => 4
  }

  /** Both dates present and read, and expiry on or before arrival plus six months. */
  predicate PassportTooShortFor(a: Application) {
    && Present(Column(a, "passportExpiry")) && Present(Column(a, "arrivalDate"))
    && ParseIsoDate(Column(a, "passportExpiry").value).Some?
    && ParseIsoDate(Column(a, "arrivalDate").value).Some?
    && !PassportCoversStay(ParseIsoDate(Column(a, "arrivalDate").value).value,
                           ParseIsoDate(Column(a, "passportExpiry").value).value)
  }

  /** An arrival date is present, read, and its midnight lies before now. */
  predicate ArrivalPassedFor(a: Application, nowMs: int) {
    && Present(Column(a, "arrivalDate"))
    && ParseIsoDate(Column(a, "arrivalDate").value).Some?
    && Midnight(ParseIsoDate(Column(a, "arrivalDate").value).value) < nowMs
  }

  /** The checks in `s` are listed in the order they run, each once. */
  predicate InRunOrder(s: seq<ApprovalError>) {
    forall i, j :: 0 <= i < j < |s| ==> ApprovalRank(s[i]) < ApprovalRank(s[j])
  }

  /** `s`, then `e` when `cond` holds. */
  function Flag(s: seq<ApprovalError>, cond: bool, e: ApprovalError): (r: seq<ApprovalError>)
    requires InRunOrder(s)
    requires forall i :: 0 <= i < |s| ==> ApprovalRank(s[i]) < ApprovalRank(e)
    ensures r == s || r == s + [e]
    ensures InRunOrder(r)
    ensures forall i :: 0 <= i < |r| ==> ApprovalRank(r[i]) <= ApprovalRank(e)
    ensures e in r <==> cond
    ensures forall x :: x != e ==> (x in r <==> x in s)
    ensures |r| <= |s| + 1
  {
    if cond then s + [e] else s
  }

  /** The checks whose failure flag is set, in the order they run. */
  function FailedChecks(photo: bool, copy: bool, payment: bool, passport: bool, arrival: bool): (r: seq<ApprovalError>)
    ensures MissingPhoto in r <==> photo
    ensures MissingPassportCopy in r <==> copy
    ensures PaymentNotConfirmed in r <==> payment
    ensures PassportTooShort in r <==> passport
    ensures ArrivalPassed in r <==> arrival
    ensures |r| <= 5
    ensures InRunOrder(r)
  {
    var r1 := Flag([], photo, MissingPhoto);
    var r2 := Flag(r1, copy, MissingPassportCopy);
    var r3 := Flag(r2, payment, PaymentNotConfirmed);
    var r4 := Flag(r3, passport, PassportTooShort);
    Flag(r4, arrival, ArrivalPassed)
  }

  /** The checks that fail on `a` at `nowMs`, in the order they run. */
  function ApprovalErrors(a: Application, nowMs: int): (r: seq<ApprovalError>)
    ensures MissingPhoto in r <==> !Present(Column(a, "photoPath"))
    ensures MissingPassportCopy in r <==> !Present(Column(a, "passportCopyPath"))
    ensures PaymentNotConfirmed in r <==> a.paymentStatus != Some(Paid)
    ensures PassportTooShort in r <==> PassportTooShortFor(a)
    ensures ArrivalPassed in r <==> ArrivalPassedFor(a, nowMs)
    ensures |r| <= 5
    ensures InRunOrder(r)
  {
    FailedChecks(
      !Present(Column(a, "photoPath")),
      !Present(Column(a, "passportCopyPath")),
      a.paymentStatus != Some(Paid),
      PassportTooShortFor(a),
      ArrivalPassedFor(a, nowMs))
  }

  /** `validateBeforeApproval`: the failed checks' texts, and valid iff there are none. */
  function ValidateBeforeApproval(a: Application, nowMs: int): (r: ApprovalCheck)
    ensures r.valid <==> r.errors == []
    ensures |r.errors| == |ApprovalErrors(a, nowMs)|
    ensures forall i :: 0 <= i < |r.errors| ==> r.errors[i] == ApprovalMessage(ApprovalErrors(a, nowMs)[i])
  {
    var errors := seq(|ApprovalErrors(a, nowMs)|, i requires 0 <= i < |ApprovalErrors(a, nowMs)| =>
      ApprovalMessage(ApprovalErrors(a, nowMs)[i]));
    ApprovalCheck(|errors| == 0, errors)
  }

  /**
   * An application that passes the pre-approval check with both dates readable
   * satisfies the form's cross-field rule, and its arrival has not passed.
   */
  lemma ApprovalImpliesCrossRule(a: Application, nowMs: int, arrival: int, expiry: int)
    requires ValidateBeforeApproval(a, nowMs).valid
    requires Column(a, "arrivalDate").Some? && ParseIsoDate(Column(a, "arrivalDate").value) == Some(arrival)
    requires Column(a, "passportExpiry").Some? && ParseIsoDate(Column(a, "passportExpiry").value) == Some(expiry)
    ensures PassportCoversStay(arrival, expiry)
    ensures Midnight(arrival) >= nowMs
  {
    assert ApprovalErrors(a, nowMs) == [];
  }
}
