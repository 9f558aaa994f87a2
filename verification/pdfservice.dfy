/**
 * The data `generateVisaPDF` (`server/services/pdf.service.ts`) hands to the
 * visa template: the labels, fallbacks and photo choice. Reading files,
 * base64 encoding, locale date formatting and the headless browser are
 * parameters: `images` gives the base64 contents of an image file (`None`
 * when it is missing or unreadable), `frDate` is `toLocaleDateString('fr-FR')`
 * of a date text, and the renderer either prints the filled template or fails.
 */
module PdfService {
  import opened Wrappers
  import opened Text
  import opened Schema
  import Upload

  /** What the generator reads besides the application row. */
  datatype PdfEnv = PdfEnv(
    cwd: string,
    moduleDir: string,
    images: string -> Option<string>,
    template: Option<string>,
    issueDate: string,
    frDate: string -> string,
    rendererFails: bool)

  /** The fields of the template's `data` object; the four security images are always `null` and are left out. */
  datatype TemplateData = TemplateData(
    visaNumber: string,
    applicationNumber: string,
    issueDate: string,
    visaTypeLabel: string,
    firstName: string,
    lastName: string,
    nationality: string,
    passportNumber: string,
    stayDays: string,
    photoUrl: Option<string>,
    provenance: string,
    accompaniedBy: string,
    sponsorFullName: string,
    addressInDRC: string,
    passportExpiry: string,
    dateOfBirth: string,
    placeOfBirth: string,
    gender: string,
    civilStatus: string,
    occupation: string,
    address: string,
    arrivalDate: string,
    purposeOfVisit: string,
    logoArmoiries: Option<string>,
    logoDgm: Option<string>,
    logoEvisa: Option<string>)

  /** The printed document: the template text and the data it is filled with. */
  datatype VisaPdf = VisaPdf(template: string, data: TemplateData)

  const PdfError: string := "Failed to generate PDF"
  const SpecificType: string := "VOLANT_SPECIFIQUE"
  const DefaultAddress: string := "KINSHASA / GOMBE"

  /** `visaTypeLabels[t] || 'ORDINAIRE'`: only the specific type prints differently. */
  function VisaTypeLabel(t: string): (r: string)
    ensures r == "SPECIFIQUE" <==> t == SpecificType
    ensures r == "SPECIFIQUE" || r == "ORDINAIRE"
  {
    if t == "VOLANT_ORDINAIRE" then "ORDINAIRE"
    else if t == SpecificType then "SPECIFIQUE"
    else "ORDINAIRE"
  }

  /** The stay printed on the visa: 30 days for the specific type, 7 for any other. */
  function StayDays(t: string): (r: string)
    ensures r == "30" <==> t == SpecificType
    ensures r == "30" || r == "7"
  {
    if t == SpecificType then "30" else "7"
  }

  /** `genderLabels[g] || g || ''`. */
  function GenderLabel(g: Option<string>): (r: string)
    ensures g == Some("male") ==> r == "Masculin"
    ensures g == Some("female") ==> r == "Féminin"
    ensures g != Some("male") && g != Some("female") ==> r == OrEmpty(g)
  {
    if g == Some("male") then "Masculin"
    else if g == Some("female") then "Féminin"
    else OrEmpty(g)
  }

  /** `first last` when both sponsor names are truthy, the empty text otherwise. */
  function SponsorFullName(first: Option<string>, last: Option<string>): (r: string)
    ensures Present(first) && Present(last) ==> r == first.value + " " + last.value
    ensures !(Present(first) && Present(last)) ==> r == ""
  {
    if Present(first) && Present(last) then first.value + " " + last.value else ""
  }

  /** A date column in the French format, or the empty text when it is absent or empty. */
  function FrenchDate(env: PdfEnv, d: Option<string>): (r: string)
    ensures !Present(d) ==> r == ""
    ensures Present(d) ==> r == env.frDate(d.value)
  {
    if Present(d) then env.frDate(d.value) else ""
  }

  /** The type of an uploaded photo: PNG when its extension is `.png` in any case, JPEG otherwise. */
  function PhotoMime(path: string): (r: string)
    ensures r == "image/png" <==> ToLower(Upload.ExtName(path)) == ".png"
    ensures r == "image/png" || r == "image/jpeg"
  {
    if ToLower(Upload.ExtName(path)) == ".png" then "image/png" else "image/jpeg"
  }

  /** `data:<mime>;base64,<contents>`. */
  function DataUrl(mime: string, base64: string): (r: string)
    ensures StartsWith(r, "data:" + mime + ";base64,")
    ensures r[|"data:" + mime + ";base64,"|..] == base64
  {
    "data:" + mime + ";base64," + base64
  }

  /** The embedded image of a file, or `null` when it cannot be read. */
  function Embed(env: PdfEnv, path: string, mime: string): (r: Option<string>)
    ensures r.Some? <==> env.images(path).Some?
    ensures r.Some? ==> r.value == DataUrl(mime, env.images(path).value)
  {
    match env.images(path)
    case None => None
    case Some(b) => Some(DataUrl(mime, b))
  }

  function UploadedPhotoPath(env: PdfEnv, a: Application, photoId: string): string {
    env.cwd + "/server/uploads/" + a.id + "/" + photoId
  }

  function DefaultPhotoPath(env: PdfEnv): string {
    env.cwd + "/server/assets/default-photo.jpg"
  }

  /**
   * The photo: the uploaded one named by `photoId` when the row has one and
   * it can be read, typed by its extension; otherwise the default JPEG;
   * otherwise none.
   */
  function PhotoUrl(env: PdfEnv, a: Application): (r: Option<string>)
    ensures var p := Column(a, "photoId");
      Present(p) && env.images(UploadedPhotoPath(env, a, p.value)).Some? ==>
        r == Some(DataUrl(PhotoMime(UploadedPhotoPath(env, a, p.value)), env.images(UploadedPhotoPath(env, a, p.value)).value))
    ensures var p := Column(a, "photoId");
      !(Present(p) && env.images(UploadedPhotoPath(env, a, p.value)).Some?) ==>
        r == Embed(env, DefaultPhotoPath(env), "image/jpeg")
  {
    var p := Column(a, "photoId");
    var uploaded :=
      if Present(p) then
        var path := UploadedPhotoPath(env, a, p.value);
        Embed(env, path, PhotoMime(path))
      else None;
    if uploaded.Some? then uploaded else Embed(env, DefaultPhotoPath(env), "image/jpeg")
  }

  /** The template data of an application row. */
  function TemplateDataOf(env: PdfEnv, a: Application): (d: TemplateData)
    ensures d.visaNumber == (if a.applicationNumber != "" then a.applicationNumber else "N/A")
    ensures d.applicationNumber == d.visaNumber
    ensures d.visaTypeLabel == VisaTypeLabel(a.visaType) && d.stayDays == StayDays(a.visaType)
    ensures d.sponsorFullName == SponsorFullName(Column(a, "sponsorFirstName"), Column(a, "sponsorLastName"))
    ensures Present(Column(a, "sponsorAddress")) ==> d.addressInDRC == Column(a, "sponsorAddress").value
    ensures !Present(Column(a, "sponsorAddress")) ==> d.addressInDRC == DefaultAddress
    ensures d.gender == GenderLabel(Column(a, "gender"))
    ensures d.photoUrl == PhotoUrl(env, a)
    ensures d.accompaniedBy == ""
    ensures d.logoDgm == Embed(env, env.moduleDir + "/../assets/logos/dgm-logo.png", "image/jpeg")
  {
    TemplateData(
      visaNumber := if a.applicationNumber != "" then a.applicationNumber else "N/A",
      applicationNumber := if a.applicationNumber != "" then a.applicationNumber else "N/A",
      issueDate := env.issueDate,
      visaTypeLabel := VisaTypeLabel(a.visaType),
      firstName := a.firstName,
      lastName := a.lastName,
      nationality := a.nationality,
      passportNumber := OrEmpty(Column(a, "passportNumber")),
      stayDays := StayDays(a.visaType),
      photoUrl := PhotoUrl(env, a),
      provenance := OrEmpty(Column(a, "countryOfOrigin")),
      accompaniedBy := "",
      sponsorFullName := SponsorFullName(Column(a, "sponsorFirstName"), Column(a, "sponsorLastName")),
      addressInDRC := if Present(Column(a, "sponsorAddress")) then Column(a, "sponsorAddress").value else DefaultAddress,
      passportExpiry := FrenchDate(env, Column(a, "passportExpiry")),
      dateOfBirth := FrenchDate(env, Column(a, "dateOfBirth")),
      placeOfBirth := OrEmpty(Column(a, "placeOfBirth")),
      gender := GenderLabel(Column(a, "gender")),
      civilStatus := OrEmpty(Column(a, "civilStatus")),
      occupation := OrEmpty(Column(a, "occupation")),
      address := OrEmpty(Column(a, "address")),
      arrivalDate := FrenchDate(env, Column(a, "arrivalDate")),
      purposeOfVisit := OrEmpty(Column(a, "purposeOfVisit")),
      logoArmoiries := Embed(env, env.moduleDir + "/../assets/logos/armoiries-rdc.png", "image/png"),
      logoDgm := Embed(env, env.moduleDir + "/../assets/logos/dgm-logo.png", "image/jpeg"),
      logoEvisa := Embed(env, env.moduleDir + "/../assets/logos/evisa-logo.png", "image/png"))
  }

  /**
   * `generateVisaPDF`: the filled template, or the single error
   * "Failed to generate PDF" when the template cannot be read or the
   * renderer fails. A missing photo or logo is not an error.
   */
  function GenerateVisaPdf(env: PdfEnv, a: Application): (r: Result<VisaPdf>)
    ensures r.Success? <==> env.template.Some? && !env.rendererFails
    ensures r.Failure? ==> r.error == PdfError
    ensures r.Success? ==> r.value.template == env.template.value && r.value.data == TemplateDataOf(env, a)
  {
    if env.template.None? || env.rendererFails then Failure(PdfError)
    else Success(VisaPdf(env.template.value, TemplateDataOf(env, a)))
  }

  /**
   * Images never decide success: whatever files are missing, the document is
   * produced as long as the template is read and the renderer works.
   */
  lemma ImagesNeverFail(env: PdfEnv, a: Application, images: string -> Option<string>)
    ensures GenerateVisaPdf(env, a).Success? == GenerateVisaPdf(env.(images := images), a).Success?
  {
  }

  /**
   * The only visa types the printed stay and label distinguish are the
   * specific one and all others: the two always agree on which it is.
   */
  lemma LabelAndStayAgree(t: string)
    ensures VisaTypeLabel(t) == "SPECIFIQUE" <==> StayDays(t) == "30"
  {
  }

  /** A photo is always embedded when the default photo can be read. */
  lemma DefaultPhotoFallback(env: PdfEnv, a: Application)
    requires env.images(DefaultPhotoPath(env)).Some?
    ensures PhotoUrl(env, a).Some?
  {
  }

  /**
   * The photo is typed by the name it was uploaded under: a photo stored as
   * `<field><ext>` in the application's folder is PNG exactly when the
   * original name ended in `.png`, in any case.
   */
  lemma PhotoMimeOfUpload(env: PdfEnv, a: Application, fieldname: string, originalname: string)
    requires fieldname != [] && '.' !in fieldname && '/' !in fieldname
    ensures var path := UploadedPhotoPath(env, a, Upload.Filename(fieldname, originalname));
      PhotoMime(path) == "image/png" <==> ToLower(Upload.ExtName(originalname)) == ".png"
  {
    var dir := env.cwd + "/server/uploads/" + a.id;
    assert UploadedPhotoPath(env, a, Upload.Filename(fieldname, originalname))
        == dir + "/" + Upload.Filename(fieldname, originalname);
    Upload.StoredExtension(dir, fieldname, originalname);
  }
}
