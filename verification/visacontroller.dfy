/**
 * `downloadVisaPdf` of `server/controllers/visa.controller.ts`: the issued
 * visa of an application as an inline PDF, guarded by the application's
 * status and the existence of its visa row.
 */
module VisaController {
  import opened Wrappers
  import opened Schema
  import opened Storage
  import opened PdfService
  import AdminController

  /** What the endpoint sends: a text with a status code, the PDF, or nothing once headers are out. */
  datatype PdfResponse =
    | Text(status: int, body: string)
    | Pdf(contentType: string, disposition: string, document: VisaPdf)
    | Nothing

  const NotIssued: string := "Visa not found or not issued"
  const NoVisaRow: string := "Visa record not found"

  /** `inline; filename="e-Visa-<number>.pdf"`. */
  function Disposition(applicationNumber: string): string {
    "inline; filename=\"e-Visa-" + applicationNumber + ".pdf\""
  }

  /** The `catch` of the handler: a 500 only when the headers have not been sent yet. */
  function OnError(headersSent: bool): (r: PdfResponse)
    ensures r.Text? <==> !headersSent
    ensures r.Text? ==> r == Text(500, "Error generating PDF")
  {
    if headersSent then Nothing else Text(500, "Error generating PDF")
  }

  /**
   * `downloadVisaPdf`: 404 unless the application exists and is `ISSUED`,
   * 404 when it has no visa row, the PDF inline under the application's
   * number otherwise. The generator fails before any header is set, so its
   * failure is always answered with a 500.
   */
  function DownloadVisaPdf(st: Store, id: string, env: PdfEnv): (r: PdfResponse)
    ensures GetApplication(st, id).None? || GetApplication(st, id).value.status != Issued ==> r == Text(404, NotIssued)
    ensures r.Pdf? ==>
      && GetApplication(st, id).Some? && GetVisaByApplicationId(st, id).Some?
      && r.contentType == "application/pdf"
      && r.disposition == Disposition(GetApplication(st, id).value.applicationNumber)
      && GenerateVisaPdf(env, GetApplication(st, id).value) == Success(r.document)
    ensures r != Nothing
  {
    match GetApplication(st, id)
    case None => Text(404, NotIssued)
    case Some(a) =>
      if a.status != Issued then Text(404, NotIssued)
      else if GetVisaByApplicationId(st, id).None? then Text(404, NoVisaRow)
      else match GenerateVisaPdf(env, a)
        case Failure(_) => OnError(false)
        case Success(doc) => Pdf("application/pdf", Disposition(a.applicationNumber), doc)
  }

  /**
   * The PDF is served exactly when the application is `ISSUED`, has a visa
   * row, and the template can be rendered.
   */
  lemma DownloadIff(st: Store, id: string, env: PdfEnv)
    ensures DownloadVisaPdf(st, id, env).Pdf? <==>
      && GetApplication(st, id).Some? && GetApplication(st, id).value.status == Issued
      && (exists k :: 0 <= k < |st.visas| && st.visas[k].applicationId == id)
      && env.template.Some? && !env.rendererFails
  {
  }

  /** An issued application whose visa row is missing gets its own 404. */
  lemma IssuedWithoutVisa(st: Store, id: string, env: PdfEnv)
    requires GetApplication(st, id).Some? && GetApplication(st, id).value.status == Issued
    requires forall k :: 0 <= k < |st.visas| ==> st.visas[k].applicationId != id
    ensures DownloadVisaPdf(st, id, env) == Text(404, NoVisaRow)
  {
  }

  /** A failing renderer is always a 500, never a silent drop. */
  lemma RenderFailureIs500(st: Store, id: string, env: PdfEnv)
    requires GetApplication(st, id).Some? && GetApplication(st, id).value.status == Issued
    requires GetVisaByApplicationId(st, id).Some?
    requires env.template.None? || env.rendererFails
    ensures DownloadVisaPdf(st, id, env) == Text(500, "Error generating PDF")
  {
  }

  /**
   * The printed stay does not come from the stored visa: an ordinary visa
   * approved without a matching product is stored for 30 days, while its
   * PDF prints 7.
   */
  lemma PrintedStayIgnoresVisa(products: seq<VisaProduct>)
    requires forall k :: 0 <= k < |products| ==> products[k].productType != "VOLANT_ORDINAIRE"
    ensures AdminController.StayDuration(products, "VOLANT_ORDINAIRE") == 30
    ensures StayDays("VOLANT_ORDINAIRE") == "7"
  {
  }
}
