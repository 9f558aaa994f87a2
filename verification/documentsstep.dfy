/**
 * The documents step of the application form
 * (`client/src/components/application-form/documents-step.tsx`): three
 * upload slots holding file names, of which the passport scan and the photo
 * are required before the step can be left forwards.
 */
module DocumentsStep {
  import opened Wrappers
  import opened Text

  /** What the caller passes in; each value may be missing. */
  datatype DocumentsInput = DocumentsInput(passportScan: Option<string>, photoId: Option<string>, invitationLetter: Option<string>)

  /** The step's state: the file name of each slot, `""` when empty. */
  datatype Documents = Documents(passportScan: string, photoId: string, invitationLetter: string)

  /** The three upload slots. */
  datatype Slot = PassportScan | PhotoId | InvitationLetter

  /** The opening state: each slot takes the value passed in, or `""` when it is missing or empty. */
  function Init(data: DocumentsInput): (d: Documents)
    ensures d.passportScan == OrEmpty(data.passportScan)
    ensures d.photoId == OrEmpty(data.photoId)
    ensures d.invitationLetter == OrEmpty(data.invitationLetter)
  {
    Documents(OrEmpty(data.passportScan), OrEmpty(data.photoId), OrEmpty(data.invitationLetter))
  }

  function Get(d: Documents, s: Slot): string {
    match s
    case PassportScan => d.passportScan
    case PhotoId => d.photoId
    case InvitationLetter => d.invitationLetter
  }

  /** The `onChange` of a slot: that slot takes the value, the others keep theirs. */
  function Set(d: Documents, s: Slot, value: string): (r: Documents)
    ensures Get(r, s) == value
    ensures forall t :: t != s ==> Get(r, t) == Get(d, t)
  {
    match s
    case PassportScan => d.(passportScan := value)
    case PhotoId => d.(photoId := value)
    case InvitationLetter => d.(invitationLetter := value)
  }

  /** Choosing or dropping files: the first file's name is stored; with no file nothing changes. */
  function Choose(d: Documents, s: Slot, firstFileName: Option<string>): (r: Documents)
    ensures firstFileName.None? ==> r == d
    ensures firstFileName.Some? ==> r == Set(d, s, firstFileName.value)
  {
    match firstFileName
    case None => d
    case Some(name) => Set(d, s, name)
  }

  /** The remove button of a slot empties it. */
  function Remove(d: Documents, s: Slot): (r: Documents)
    ensures Get(r, s) == ""
    ensures forall t :: t != s ==> Get(r, t) == Get(d, t)
  {
    Set(d, s, "")
  }

  /** `canProceed`: the passport scan and the photo are both filled in. */
  predicate CanProceed(d: Documents) {
    d.passportScan != "" && d.photoId != ""
  }

  /** A slot that must be filled before the step can be left. */
  predicate Required(s: Slot) {
    s != InvitationLetter
  }

  /** The step can be left exactly when every required slot is filled in. */
  lemma CanProceedIffRequiredFilled(d: Documents)
    ensures CanProceed(d) <==> forall s :: Required(s) ==> Get(d, s) != ""
  {
    if !CanProceed(d) {
      if d.passportScan == "" {
        assert Required(PassportScan) && Get(d, PassportScan) == "";
      } else {
        assert Required(PhotoId) && Get(d, PhotoId) == "";
      }
    }
  }

  /**
   * `handleNext`: when the step can be left, all three values are saved and
   * the wizard moves on; otherwise nothing happens.
   */
  function HandleNext(d: Documents): (r: Option<Documents>)
    ensures r.Some? <==> CanProceed(d)
    ensures r.Some? ==> r.value == d
  {
    if CanProceed(d) then Some(d) else None
  }

  /** The "next" button is disabled exactly when `handleNext` would do nothing. */
  predicate NextDisabled(d: Documents) {
    !CanProceed(d)
  }

  lemma NextButtonAgrees(d: Documents)
    ensures NextDisabled(d) <==> HandleNext(d).None?
  {
  }

  /** Removing a required document blocks the step; the invitation letter never matters. */
  lemma RemoveRequiredBlocks(d: Documents, s: Slot)
    ensures Required(s) ==> !CanProceed(Remove(d, s))
    ensures !Required(s) ==> CanProceed(Remove(d, s)) == CanProceed(d)
  {
    if Required(s) {
      assert Get(Remove(d, s), s) == "";
      CanProceedIffRequiredFilled(Remove(d, s));
    } else {
      assert Get(Remove(d, s), PassportScan) == d.passportScan;
      assert Get(Remove(d, s), PhotoId) == d.photoId;
    }
  }

  /** Choosing a file then removing it leaves the slot as removing alone would. */
  lemma ChooseThenRemove(d: Documents, s: Slot, name: Option<string>)
    ensures Remove(Choose(d, s, name), s) == Remove(d, s)
  {
  }

  /** Choosing files with non-empty names for both required slots lets the step be left. */
  lemma ChosenRequiredProceed(d: Documents, passport: string, photo: string)
    requires passport != "" && photo != ""
    ensures CanProceed(Choose(Choose(d, PassportScan, Some(passport)), PhotoId, Some(photo)))
  {
    var d1 := Choose(d, PassportScan, Some(passport));
    assert Get(d1, PassportScan) == passport;
    var d2 := Choose(d1, PhotoId, Some(photo));
    assert Get(d2, PassportScan) == passport;
    assert Get(d2, PhotoId) == photo;
  }

  /** A step opened without documents cannot be left. */
  lemma EmptyInputBlocks()
    ensures !CanProceed(Init(DocumentsInput(None, None, None)))
  {
  }
}
