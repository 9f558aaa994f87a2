/**
 * The application wizard of `client/src/pages/apply.tsx`: four steps
 * (applicant, sponsor, summary, payment), a certification box and a flat
 * form of text fields. Every user action is a pure transition of the page
 * state; a run of actions keeps the step within 1..4.
 */
module ApplyWizard {
  import opened Wrappers
  import Schema

  /** The page state: the current step, the certification box and the form values. */
  datatype Wizard = Wizard(step: int, agreed: bool, form: map<string, string>)

  const FirstStep: int := 1
  const LastStep: int := 4
  /** The summary step, the only one that draws the certification box. */
  const SummaryStep: int := 3

  /** The form as the page starts it: the default visa type, genders and dialling codes, every other field empty. */
  const InitialForm: map<string, string> := map[
    "visaType" := "VOLANT_ORDINAIRE", "codeInstitution" := "", "arrivalDate" := "",
    "passportNumber" := "", "passportExpiryDate" := "", "firstName" := "", "lastName" := "",
    "dateOfBirth" := "", "placeOfBirth" := "", "gender" := "male", "photoId" := "",
    "civilStatus" := "", "occupation" := "", "address" := "", "nationality" := "",
    "countryOfOrigin" := "", "email" := "", "phoneCountryCode" := "+33", "phone" := "",
    "purposeOfVisit" := "", "passportScan" := "", "sponsorFirstName" := "",
    "sponsorLastName" := "", "sponsorPlaceOfBirth" := "", "sponsorDateOfBirth" := "",
    "sponsorGender" := "male", "sponsorIdNumber" := "", "sponsorIdExpiry" := "",
    "sponsorIdIssuedBy" := "", "sponsorCivilStatus" := "", "sponsorAddress" := "",
    "sponsorNationality" := "", "sponsorEmail" := "", "sponsorPhoneCountryCode" := "+243",
    "sponsorPhone" := "", "sponsorRelation" := "", "sponsorRequestLetter" := "",
    "sponsorPassportScan" := "", "sponsorVisaScan" := ""]

  const Initial: Wizard := Wizard(FirstStep, false, InitialForm)

  /** A form value is truthy: present and not the empty text. */
  predicate Filled(form: map<string, string>, field: string) {
    field in form && form[field] != ""
  }

  /** The fields the applicant step requires. */
  const ApplicantFields: seq<string> :=
    ["firstName", "lastName", "email", "passportNumber", "nationality", "arrivalDate"]

  /** The fields the sponsor step requires. */
  const SponsorFields: seq<string> :=
    ["sponsorFirstName", "sponsorLastName", "sponsorAddress", "sponsorPhone"]

  /** Every field of `fields` is filled in. */
  predicate AllFilled(form: map<string, string>, fields: seq<string>) {
    forall i :: 0 <= i < |fields| ==> Filled(form, fields[i])
  }

  /**
   * `canProceed`: the applicant step needs its six fields, the sponsor step
   * its four, the summary and payment steps nothing.
   */
  function CanProceed(w: Wizard): (r: bool)
    ensures w.step == 1 ==> (r <==> AllFilled(w.form, ApplicantFields))
    ensures w.step == 2 ==> (r <==> AllFilled(w.form, SponsorFields))
    ensures w.step != 1 && w.step != 2 ==> r
  {
    if w.step == 1 then
      ApplicantFieldsFilled(w.form);
      && Filled(w.form, "firstName") && Filled(w.form, "lastName") && Filled(w.form, "email")
      && Filled(w.form, "passportNumber") && Filled(w.form, "nationality") && Filled(w.form, "arrivalDate")
    else if w.step == 2 then
      SponsorFieldsFilled(w.form);
      && Filled(w.form, "sponsorFirstName") && Filled(w.form, "sponsorLastName")
      && Filled(w.form, "sponsorAddress") && Filled(w.form, "sponsorPhone")
    else true
  }

  lemma ApplicantFieldsFilled(form: map<string, string>)
    ensures AllFilled(form, ApplicantFields) <==>
      && Filled(form, "firstName") && Filled(form, "lastName") && Filled(form, "email")
      && Filled(form, "passportNumber") && Filled(form, "nationality") && Filled(form, "arrivalDate")
  {
    assert Filled(form, "firstName") == Filled(form, ApplicantFields[0]);
    assert Filled(form, "lastName") == Filled(form, ApplicantFields[1]);
    assert Filled(form, "email") == Filled(form, ApplicantFields[2]);
    assert Filled(form, "passportNumber") == Filled(form, ApplicantFields[3]);
    assert Filled(form, "nationality") == Filled(form, ApplicantFields[4]);
    assert Filled(form, "arrivalDate") == Filled(form, ApplicantFields[5]);
  }

  lemma SponsorFieldsFilled(form: map<string, string>)
    ensures AllFilled(form, SponsorFields) <==>
      && Filled(form, "sponsorFirstName") && Filled(form, "sponsorLastName")
      && Filled(form, "sponsorAddress") && Filled(form, "sponsorPhone")
  {
    assert Filled(form, "sponsorFirstName") == Filled(form, SponsorFields[0]);
    assert Filled(form, "sponsorLastName") == Filled(form, SponsorFields[1]);
    assert Filled(form, "sponsorAddress") == Filled(form, SponsorFields[2]);
    assert Filled(form, "sponsorPhone") == Filled(form, SponsorFields[3]);
  }

  /** `nextStep`: one step forward, except from the last. */
  function NextStep(w: Wizard): (r: Wizard)
    ensures r.form == w.form && r.agreed == w.agreed
    ensures w.step < LastStep ==> r.step == w.step + 1
    ensures w.step >= LastStep ==> r == w
  {
    if w.step < LastStep then w.(step := w.step + 1) else w
  }

  /** `prevStep`: one step back, except from the first. */
  function PrevStep(w: Wizard): (r: Wizard)
    ensures r.form == w.form && r.agreed == w.agreed
    ensures w.step > FirstStep ==> r.step == w.step - 1
    ensures w.step <= FirstStep ==> r == w
  {
    if w.step > FirstStep then w.(step := w.step - 1) else w
  }

  /** Going forward then back, or back then forward, returns to the same page inside the range. */
  lemma NextPrevInverse(w: Wizard)
    ensures FirstStep <= w.step < LastStep ==> PrevStep(NextStep(w)) == w
    ensures FirstStep < w.step <= LastStep ==> NextStep(PrevStep(w)) == w
  {
  }

  /** A step button is disabled when it names a later step. */
  predicate StepButtonDisabled(id: int, current: int) {
    id > current
  }

  /** Clicking the button of step `id`: only an earlier step is entered. */
  function GoToStep(w: Wizard, id: int): (r: Wizard)
    ensures r.form == w.form && r.agreed == w.agreed
    ensures r.step <= w.step
    ensures r.step != w.step <==> id < w.step
    ensures r.step != w.step ==> r.step == id
  {
    if id < w.step then w.(step := id) else w
  }

  /** `updateField`: the named field takes the value; every other field, the step and the box are kept. */
  function UpdateField(w: Wizard, field: string, value: string): (r: Wizard)
    ensures r.step == w.step && r.agreed == w.agreed
    ensures r.form.Keys == w.form.Keys + {field}
    ensures r.form[field] == value
    ensures forall f :: f in w.form && f != field ==> r.form[f] == w.form[f]
  {
    w.(form := w.form[field := value])
  }

  /** What the user can do on the page. */
  datatype Event =
    | ClickNext
    | ClickPrev
    | ClickStep(id: int)
    | Edit(field: string, value: string)
    | Certify(checked: bool)

  /** The step buttons the page draws. */
  predicate IsStepId(id: int) {
    FirstStep <= id <= LastStep
  }

  /**
   * One user action. "Next" is drawn below the last step and is disabled
   * unless `canProceed`; "Previous" is disabled on the first step; a step
   * button exists only for ids 1 to 4 and is disabled for later steps; the
   * certification box is drawn on the summary step only.
   */
  function Apply(w: Wizard, e: Event): Wizard {
    match e
    case ClickNext => if w.step < LastStep && CanProceed(w) then NextStep(w) else w
    case ClickPrev => if w.step != FirstStep then PrevStep(w) else w
    case ClickStep(id) => if IsStepId(id) && !StepButtonDisabled(id, w.step) then GoToStep(w, id) else w
    case Edit(f, v) => UpdateField(w, f, v)
    case Certify(b) => if w.step == SummaryStep then w.(agreed := b) else w
  }

  /** Ticking or unticking sets the box on the summary step and does nothing elsewhere. */
  lemma CertifyOnSummaryOnly(w: Wizard, b: bool)
    ensures w.step == SummaryStep ==> Apply(w, Certify(b)).agreed == b
    ensures w.step != SummaryStep ==> Apply(w, Certify(b)) == w
    ensures Apply(w, Certify(b)).step == w.step && Apply(w, Certify(b)).form == w.form
  {
  }

  /** The state after a sequence of actions. */
  function Run(w: Wizard, es: seq<Event>): Wizard
    decreases |es|
  {
    if |es| == 0 then w else Run(Apply(w, es[0]), es[1..])
  }

  /** A single action keeps the step within 1..4 and moves it by at most one forward. */
  lemma ApplyStaysInRange(w: Wizard, e: Event)
    requires FirstStep <= w.step <= LastStep
    ensures FirstStep <= Apply(w, e).step <= LastStep
    ensures Apply(w, e).step <= w.step + 1
  {
  }

  /** Whatever the user does from a step in 1..4, the step stays in 1..4. */
  lemma {:induction false} RunStaysInRange(w: Wizard, es: seq<Event>)
    requires FirstStep <= w.step <= LastStep
    ensures FirstStep <= Run(w, es).step <= LastStep
    decreases |es|
  {
    if |es| > 0 {
      ApplyStaysInRange(w, es[0]);
      RunStaysInRange(Apply(w, es[0]), es[1..]);
    }
  }

  /** From the page's initial state, every run of actions leaves the step in 1..4. */
  lemma InitialRunsStayInRange(es: seq<Event>)
    ensures FirstStep <= Run(Initial, es).step <= LastStep
  {
    RunStaysInRange(Initial, es);
  }

  /**
   * The only way forward is "Next" on a step whose fields are filled in, and
   * it advances by exactly one step.
   */
  lemma ForwardNeedsProceed(w: Wizard, e: Event)
    requires Apply(w, e).step > w.step
    ensures e.ClickNext? && CanProceed(w)
    ensures Apply(w, e).step == w.step + 1
  {
  }

  /** The step buttons never move forward: clicking one lands on an earlier step or stays. */
  lemma StepButtonsGoBack(w: Wizard, id: int)
    ensures Apply(w, ClickStep(id)).step <= w.step
    ensures Apply(w, ClickStep(id)).step < w.step <==> IsStepId(id) && id < w.step
  {
  }

  /** By induction over a run: the step never exceeds its start plus the number of actions. */
  lemma {:induction false} RunAdvancesAtMostOnePerEvent(w: Wizard, es: seq<Event>)
    requires FirstStep <= w.step <= LastStep
    ensures Run(w, es).step <= w.step + |es|
    decreases |es|
  {
    if |es| > 0 {
      ApplyStaysInRange(w, es[0]);
      RunAdvancesAtMostOnePerEvent(Apply(w, es[0]), es[1..]);
    }
  }

  /** The fresh form cannot leave the applicant step: all its required fields are empty. */
  lemma InitialCannotProceed()
    ensures !CanProceed(Initial)
    ensures Apply(Initial, ClickNext) == Initial
  {
    assert !Filled(InitialForm, ApplicantFields[0]);
  }

  /** The answer to "Submit": a warning toast, or the form posted to `/api/applications`. */
  datatype SubmitOutcome = Toast(title: string, description: string) | Post(body: map<string, string>)

  /** `handleSubmit`: nothing is sent unless the certification box is ticked; then the whole form is. */
  function HandleSubmit(w: Wizard): (r: SubmitOutcome)
    ensures r.Post? <==> w.agreed
    ensures r.Post? ==> r.body == w.form
    ensures r.Toast? ==> r.title == "Certification requise"
  {
    if !w.agreed then Toast("Certification requise", "Vous devez certifier que les informations sont exactes")
    else Post(w.form)
  }

  /** "Next" is drawn on steps 1 to 3 and the submit button on step 4. */
  predicate SubmitShown(w: Wizard) {
    !(w.step < LastStep)
  }

  /** The submit button is disabled while a submission is pending or the box is unticked. */
  predicate SubmitDisabled(w: Wizard, pending: bool) {
    pending || !w.agreed
  }

  /** An enabled submit button always posts the form; a disabled one would only have warned. */
  lemma SubmitButtonPosts(w: Wizard, pending: bool)
    ensures !SubmitDisabled(w, pending) ==> HandleSubmit(w) == Post(w.form)
    ensures HandleSubmit(w).Toast? ==> SubmitDisabled(w, pending)
  {
  }

  /** The page is never able to post before the box has been ticked by some action. */
  lemma {:induction false} RunPostsOnlyAfterCertify(w: Wizard, es: seq<Event>)
    requires !w.agreed
    requires forall i :: 0 <= i < |es| ==> !es[i].Certify?
    ensures HandleSubmit(Run(w, es)).Toast?
    decreases |es|
  {
    if |es| > 0 {
      RunPostsOnlyAfterCertify(Apply(w, es[0]), es[1..]);
    }
  }

  /** The form's visa type, or the empty text when it has been removed. */
  function VisaTypeOf(w: Wizard): string {
    if "visaType" in w.form then w.form["visaType"] else ""
  }

  /**
   * `visaTypeLabels[formData.visaType].price`, read on every render: `None`
   * when the visa type has no entry, where the page reads `price` of
   * `undefined`, throws a `TypeError` and is not drawn at all.
   */
  function ShownPrice(w: Wizard): (r: Option<int>)
    ensures r.Some? <==> VisaTypeOf(w) in Schema.VisaTypes
    ensures r.Some? ==> r == Some(Schema.VisaTypeLabel(VisaTypeOf(w)).value.price)
  {
    match Schema.VisaTypeLabel(VisaTypeOf(w))
    case None => None
    case Some(info) => Some(info.price)
  }

  /**
   * The page's own default visa type, `VOLANT_ORDINAIRE`, is not one of the
   * types `visaTypeLabels` describes: the price lookup finds no entry.
   */
  lemma InitialPriceMissing()
    ensures ShownPrice(Initial).None?
  {
    assert VisaTypeOf(Initial) == "VOLANT_ORDINAIRE";
    assert VisaTypeOf(Initial) !in Schema.VisaTypes by {
      assert Schema.VisaTypes == ["TOURISM", "BUSINESS", "TRANSIT", "SHORT_STAY"];
    }
  }

  /** The two choices of the visa-type selector. */
  const OfferedVisaTypes: seq<string> := ["VOLANT_ORDINAIRE", "VOLANT_SPECIFIQUE"]

  /** Every change of the visa type picks one of `offered`, as a selector does. */
  predicate EditsChooseFrom(es: seq<Event>, offered: seq<string>) {
    forall i :: 0 <= i < |es| && es[i].Edit? && es[i].field == "visaType" ==> es[i].value in offered
  }

  /**
   * While every visa-type edit picks one of `offered`, a form whose type is one
   * of them keeps a type among them, whatever else the user does.
   */
  lemma {:induction false} RunKeepsVisaTypeAmong(w: Wizard, es: seq<Event>, offered: seq<string>)
    requires VisaTypeOf(w) in offered
    requires EditsChooseFrom(es, offered)
    ensures VisaTypeOf(Run(w, es)) in offered
    decreases |es|
  {
    if |es| > 0 {
      var w1 := Apply(w, es[0]);
      assert VisaTypeOf(w1) in offered by {
        if es[0].Edit? && es[0].field == "visaType" {
          assert VisaTypeOf(w1) == es[0].value;
        } else {
          assert VisaTypeOf(w1) == VisaTypeOf(w);
        }
      }
      assert EditsChooseFrom(es[1..], offered) by {
        forall i | 0 <= i < |es[1..]| && es[1..][i].Edit? && es[1..][i].field == "visaType"
          ensures es[1..][i].value in offered
        {
          assert es[1..][i] == es[i + 1];
        }
      }
      RunKeepsVisaTypeAmong(w1, es[1..], offered);
    }
  }

  /**
   * As written, neither choice of the selector has a `visaTypeLabels` entry, so
   * from the initial page every run of actions ends on a render that throws.
   */
  lemma OfferedRunsNeverRender(es: seq<Event>)
    requires EditsChooseFrom(es, OfferedVisaTypes)
    ensures ShownPrice(Run(Initial, es)).None?
  {
    assert VisaTypeOf(Initial) == OfferedVisaTypes[0];
    RunKeepsVisaTypeAmong(Initial, es, OfferedVisaTypes);
    assert forall t :: t in OfferedVisaTypes ==> t !in Schema.VisaTypes by {
      assert Schema.VisaTypes == ["TOURISM", "BUSINESS", "TRANSIT", "SHORT_STAY"];
    }
  }

  /**
   * The intended page: when the selector's choices and the starting type all
   * have a `visaTypeLabels` entry, every run of actions renders a price, the
   * one the table gives for the chosen type.
   */
  lemma LabelledRunsRender(w: Wizard, es: seq<Event>, offered: seq<string>)
    requires forall t :: t in offered ==> t in Schema.VisaTypes
    requires VisaTypeOf(w) in offered
    requires EditsChooseFrom(es, offered)
    ensures ShownPrice(Run(w, es)).Some?
    ensures ShownPrice(Run(w, es)).value == Schema.VisaTypeLabel(VisaTypeOf(Run(w, es))).value.price
  {
    RunKeepsVisaTypeAmong(w, es, offered);
  }
}
