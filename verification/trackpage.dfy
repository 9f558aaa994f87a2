/**
 * The public tracking page of `client/src/pages/track.tsx`: when a search is
 * sent, what it sends to `GET /api/applications/track/:ref`, and which parts
 * of the status timeline and of the result card a status shows.
 */
module TrackPage {
  import opened Wrappers
  import opened Text
  import opened Schema
  import opened Storage
  import opened Http
  import ApplicationsController
  import VisaController
  import PdfService

  /** The page state: the two inputs and the last submitted pair (`null` before any). */
  datatype Page = Page(searchRef: string, searchEmail: string, submittedRef: Option<string>, submittedEmail: Option<string>)

  /**
   * The page as it opens: a truthy `?ref=` parameter fills the reference
   * input and is submitted as the reference at once; no e-mail is submitted.
   */
  function Open(refParam: Option<string>): (p: Page)
    ensures p.searchEmail == "" && p.submittedEmail == None
    ensures Present(refParam) ==> p.searchRef == refParam.value && p.submittedRef == refParam
    ensures !Present(refParam) ==> p.searchRef == "" && p.submittedRef == None
  {
    if Present(refParam) then Page(refParam.value, "", refParam, None) else Page("", "", None, None)
  }

  /** `handleSearch`: both inputs must be non-blank; the trimmed pair is then submitted. */
  function HandleSearch(p: Page): (r: Page)
    ensures r.searchRef == p.searchRef && r.searchEmail == p.searchEmail
    ensures IsBlank(p.searchRef) || IsBlank(p.searchEmail) ==> r == p
    ensures !IsBlank(p.searchRef) && !IsBlank(p.searchEmail) ==>
      r.submittedRef == Some(Trim(p.searchRef)) && r.submittedEmail == Some(Trim(p.searchEmail))
  {
    if Trim(p.searchRef) != "" && Trim(p.searchEmail) != "" then
      p.(submittedRef := Some(Trim(p.searchRef)), submittedEmail := Some(Trim(p.searchEmail)))
    else p
  }

  /** The lookup runs only when both a reference and an e-mail have been submitted. */
  predicate QueryEnabled(p: Page) {
    Present(p.submittedRef) && Present(p.submittedEmail)
  }

  /** The request the lookup sends: the reference and the e-mail as a query parameter. */
  function Lookup(st: Store, p: Page): (r: Option<Reply<Application>>)
    ensures r.Some? <==> QueryEnabled(p)
    ensures r.Some? ==> r.value == ApplicationsController.TrackApplication(st, p.submittedRef.value, p.submittedEmail)
  {
    if QueryEnabled(p) then Some(ApplicationsController.TrackApplication(st, p.submittedRef.value, p.submittedEmail))
    else None
  }

  /**
   * A search the page accepts enables the lookup, and the server never
   * answers it with "Email address is required": the page always sends a
   * non-blank e-mail.
   */
  lemma SearchEnablesLookup(st: Store, p: Page)
    requires !IsBlank(p.searchRef) && !IsBlank(p.searchEmail)
    ensures QueryEnabled(HandleSearch(p))
    ensures Lookup(st, HandleSearch(p)).value.ErrorJson? ==>
      Lookup(st, HandleSearch(p)).value == ErrorJson(404, "Application not found")
  {
  }

  /** Opening the page from a link with `?ref=` alone fetches nothing until an e-mail is searched. */
  lemma LinkAloneFetchesNothing(st: Store, refParam: Option<string>)
    ensures !QueryEnabled(Open(refParam))
    ensures Lookup(st, Open(refParam)).None?
  {
  }

  /** The lookup sends the trimmed reference and the trimmed e-mail. */
  lemma SearchSendsTrimmed(st: Store, p: Page)
    requires !IsBlank(p.searchRef) && !IsBlank(p.searchEmail)
    ensures Lookup(st, HandleSearch(p)) == Some(ApplicationsController.TrackApplication(st, Trim(p.searchRef), Some(Trim(p.searchEmail))))
  {
  }

  // The status timeline and the result card

  /** The statuses from which the review stage is marked as reached. */
  const ReviewedStatuses: seq<Status> := [UnderReview, Approved, Issued, Rejected, NeedInfo]

  predicate ReviewReached(s: Status) {
    s in ReviewedStatuses
  }

  /** The colour of the decision marker. */
  datatype Marker = Green | Red | Muted

  function DecisionMarker(s: Status): (m: Marker)
    ensures m == Green <==> s == Approved || s == Issued
    ensures m == Red <==> s == Rejected
  {
    if s == Approved || s == Issued then Green
    else if s == Rejected then Red
    else Muted
  }

  /** The title of the decision stage. */
  function DecisionTitle(s: Status): (t: string)
    ensures t == "Visa Approuvé / Émis" <==> DecisionMarker(s) == Green
    ensures t == "Demande Rejetée" <==> DecisionMarker(s) == Red
    ensures t == "Décision Finale" <==> DecisionMarker(s) == Muted
  {
    if s == Issued || s == Approved then "Visa Approuvé / Émis"
    else if s == Rejected then "Demande Rejetée"
    else "Décision Finale"
  }

  /** The "download" button is drawn for `ISSUED` applications only. */
  predicate DownloadShown(a: Application) {
    a.status == Issued
  }

  /** The refusal reason is shown for `REJECTED` applications that have one. */
  predicate RejectionShown(a: Application) {
    a.status == Rejected && Present(a.rejectionReason)
  }

  /** The administrator's notes are shown for `NEED_INFO` applications that have them. */
  predicate NotesShown(a: Application) {
    a.status == NeedInfo && Present(a.adminNotes)
  }

  /** The "not found" card is drawn when the lookup failed and a reference was submitted. */
  predicate NotFoundShown(p: Page, lookupFailed: bool) {
    lookupFailed && Present(p.submittedRef)
  }

  /**
   * The timeline only moves forward: a marked decision implies a marked
   * review, and `DRAFT`, `SUBMITTED`, `EXPIRED` and `REVOKED` mark neither.
   */
  lemma TimelineMonotone(s: Status)
    ensures DecisionMarker(s) != Muted ==> ReviewReached(s)
    ensures s == Draft || s == Submitted || s == Expired || s == Revoked ==>
      !ReviewReached(s) && DecisionMarker(s) == Muted
    ensures ReviewReached(s) <==> s != Draft && s != Submitted && s != Expired && s != Revoked
  {
  }

  /** At most one of the download button, the refusal reason and the notes is on the card. */
  lemma ResultSectionsExclusive(a: Application)
    ensures !(DownloadShown(a) && RejectionShown(a))
    ensures !(DownloadShown(a) && NotesShown(a))
    ensures !(RejectionShown(a) && NotesShown(a))
  {
  }

  /**
   * Where the download button is not drawn, the PDF endpoint would refuse
   * the application anyway: the button hides nothing the server serves.
   */
  lemma HiddenDownloadIsRefused(st: Store, a: Application, env: PdfService.PdfEnv)
    requires GetApplication(st, a.id) == Some(a)
    requires !DownloadShown(a)
    ensures VisaController.DownloadVisaPdf(st, a.id, env) == VisaController.Text(404, VisaController.NotIssued)
  {
  }
}
