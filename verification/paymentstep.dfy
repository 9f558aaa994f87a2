/**
 * The payment step of the application form
 * (`client/src/components/application-form/payment-step.tsx`): the total it
 * shows, the M-Pesa form it validates, and what it hands to its caller.
 */
module PaymentStep {
  import opened Wrappers
  import opened Schema
  import opened Storage
  import ApplicationsController

  /** The service fee added to every visa price. */
  const ServiceFee: int := 5

  /**
   * `visaInfo.price + 5`: the price of the visa type in `visaTypeLabels` plus
   * the fee; `None` for a type the table does not describe.
   */
  function Total(visaType: string): (r: Option<int>)
    ensures r.Some? <==> visaType in VisaTypes
    ensures r.Some? ==> r.value == VisaTypeLabel(visaType).value.price + ServiceFee
  {
    match VisaTypeLabel(visaType)
    case None => None
    case Some(info) => Some(info.price + ServiceFee)
  }

  /**
   * The server charges what the page shows when the visa product of the type
   * carries the same price as the page's table.
   */
  lemma TotalMatchesServerAmount(products: seq<VisaProduct>, visaType: string)
    requires visaType in VisaTypes
    requires FindProduct(products, visaType).Some?
    requires FindProduct(products, visaType).value.price == VisaTypeLabel(visaType).value.price
    ensures Total(visaType) == Some(ApplicationsController.SubmissionAmount(products, visaType))
  {
  }

  /**
   * Without a visa product of the type, the server's fallback amount of 255
   * differs from every total the page can show.
   */
  lemma FallbackAmountNeverShown(products: seq<VisaProduct>, visaType: string)
    requires visaType in VisaTypes
    requires FindProduct(products, visaType).None?
    ensures Total(visaType).value != ApplicationsController.SubmissionAmount(products, visaType)
  {
  }

  /** The values of the form. */
  datatype PaymentForm = PaymentForm(phoneNumber: string, acceptTerms: bool)

  /** The form as it opens: no phone number, terms not accepted. */
  const DefaultForm: PaymentForm := PaymentForm("", false)

  /** The complaints of `paymentSchema`. */
  datatype Issue = PhoneTooShort | PhoneTooLong | TermsNotAccepted

  /** The messages the schema gives; the length maximum keeps the library's own message. */
  function IssueMessage(i: Issue): Option<string> {
    match i
    case PhoneTooShort => Some("Numéro de téléphone invalide")
    case PhoneTooLong => None
    case TermsNotAccepted => Some("Vous devez accepter les conditions générales")
  }

  /** `paymentSchema`: a phone number of 9 to 15 characters and the terms accepted. */
  function PaymentIssues(f: PaymentForm): (r: seq<Issue>)
    ensures PhoneTooShort in r <==> |f.phoneNumber| < 9
    ensures PhoneTooLong in r <==> |f.phoneNumber| > 15
    ensures TermsNotAccepted in r <==> !f.acceptTerms
    ensures |r| <= 2
  {
    (if |f.phoneNumber| < 9 then [PhoneTooShort] else [])
    + (if |f.phoneNumber| > 15 then [PhoneTooLong] else [])
    + (if !f.acceptTerms then [TermsNotAccepted] else [])
  }

  predicate PaymentValid(f: PaymentForm) {
    9 <= |f.phoneNumber| <= 15 && f.acceptTerms
  }

  /** The schema accepts a form exactly when it reports no issue. */
  lemma IssuesIffInvalid(f: PaymentForm)
    ensures PaymentIssues(f) == [] <==> PaymentValid(f)
  {
    if !PaymentValid(f) {
      assert |f.phoneNumber| < 9 || |f.phoneNumber| > 15 || !f.acceptTerms;
      assert PaymentIssues(f) != [] by {
        if |f.phoneNumber| < 9 { assert PhoneTooShort in PaymentIssues(f); }
        else if |f.phoneNumber| > 15 { assert PhoneTooLong in PaymentIssues(f); }
        else { assert TermsNotAccepted in PaymentIssues(f); }
      }
    }
  }

  /**
   * Submitting the form: the resolver lets only a valid form through, and
   * `handleSubmit` hands the caller the phone number alone.
   */
  function HandleSubmit(f: PaymentForm): (r: Option<string>)
    ensures r.Some? <==> PaymentIssues(f) == []
    ensures r.Some? ==> r.value == f.phoneNumber && 9 <= |r.value| <= 15
  {
    IssuesIffInvalid(f);
    if PaymentValid(f) then Some(f.phoneNumber) else None
  }

  /** The opening form cannot be submitted. */
  lemma DefaultFormRefused()
    ensures HandleSubmit(DefaultForm).None?
    ensures PhoneTooShort in PaymentIssues(DefaultForm) && TermsNotAccepted in PaymentIssues(DefaultForm)
  {
  }

  /** Forms with the same phone number hand the caller the same thing once accepted. */
  lemma OnlyPhoneForwarded(f: PaymentForm, g: PaymentForm)
    requires f.phoneNumber == g.phoneNumber && f.acceptTerms && g.acceptTerms
    ensures HandleSubmit(f) == HandleSubmit(g)
  {
  }

  /** "Back" and "Pay" are both disabled while the caller reports a submission in progress. */
  predicate ButtonsDisabled(isSubmitting: bool) {
    isSubmitting
  }
}
