/** The driver registration screen: field validation and the pending-registration queue it appends to. */
module DriverRegistration {

  import opened Wrappers
  import opened Text
  import opened Store

  /** The chosen photo (`photoInput.files[0]`): its name, MIME type and size in bytes. */
  datatype PhotoFile = PhotoFile(name: string, mimeType: string, size: int)

  const AllowedImageTypes: seq<string> := ["image/jpeg", "image/jpg", "image/png", "image/gif"]

  /** 5 MB as the screen computes it: 5 * 1024 * 1024 bytes. */
  const MaxPhotoBytes: int := 5 * 1024 * 1024

  /** Why `isValidImageFile` refuses a file; the type is looked at first. */
  datatype ImageVerdict = UnlistedType | TooLarge | Acceptable

  function CheckImage(f: PhotoFile): (v: ImageVerdict)
    ensures v == UnlistedType <==> f.mimeType !in AllowedImageTypes
    ensures v == TooLarge <==> f.mimeType in AllowedImageTypes && f.size > 5242880
    ensures v == Acceptable <==> f.mimeType in AllowedImageTypes && f.size <= 5242880
  {
    if f.mimeType !in AllowedImageTypes then UnlistedType
    else if f.size > MaxPhotoBytes then TooLarge
    else Acceptable
  }

  /** `isValidImageFile`: a listed image type of at most 5242880 bytes. */
  function IsValidImageFile(f: PhotoFile): (ok: bool)
    ensures ok <==> f.mimeType in ["image/jpeg", "image/jpg", "image/png", "image/gif"] && f.size <= 5242880
  {
    CheckImage(f) == Acceptable
  }

  /** The alert each failed check shows, in the order the checks run. */
  datatype RegistrationError = MissingFields | ShortPassword | ShortCnh | ShortDocument | InvalidImage

  /** The outcome of the checks: the first failure, or the trimmed fields ready to store. */
  datatype Submission =
    | Invalid(error: RegistrationError)
    | Ready(cnh: string, vehicleDocument: string, password: string, photo: PhotoFile)

  /** Some required field is blank after trimming, or no photo was chosen. */
  predicate Blank(cnhInput: string, documentInput: string, passwordInput: string, photo: Option<PhotoFile>)
  {
    Trim(cnhInput) == [] || Trim(documentInput) == [] || Trim(passwordInput) == [] || photo.None?
  }

  /** The checks of `handleRegistration`, in their order; the first that fails decides the message. */
  function Validate(cnhInput: string, documentInput: string, passwordInput: string, photo: Option<PhotoFile>): (r: Submission)
    ensures r == Invalid(MissingFields) <==> Blank(cnhInput, documentInput, passwordInput, photo)
    ensures r == Invalid(ShortPassword) <==>
      !Blank(cnhInput, documentInput, passwordInput, photo) && |Trim(passwordInput)| < 6
    ensures r == Invalid(ShortCnh) <==>
      !Blank(cnhInput, documentInput, passwordInput, photo) && |Trim(passwordInput)| >= 6 && |Trim(cnhInput)| < 11
    ensures r == Invalid(ShortDocument) <==>
      !Blank(cnhInput, documentInput, passwordInput, photo) && |Trim(passwordInput)| >= 6 && |Trim(cnhInput)| >= 11
      && |Trim(documentInput)| < 5
    ensures r == Invalid(InvalidImage) <==>
      !Blank(cnhInput, documentInput, passwordInput, photo) && |Trim(passwordInput)| >= 6 && |Trim(cnhInput)| >= 11
      && |Trim(documentInput)| >= 5 && !IsValidImageFile(photo.value)
    ensures r.Ready? ==>
      && r.cnh == Trim(cnhInput) && |r.cnh| >= 11
      && r.vehicleDocument == Trim(documentInput) && |r.vehicleDocument| >= 5
      && r.password == Trim(passwordInput) && |r.password| >= 6
      && photo == Some(r.photo) && IsValidImageFile(r.photo)
  {
    var cnh := Trim(cnhInput);
    var vehicleDocument := Trim(documentInput);
    var password := Trim(passwordInput);
    if cnh == [] || vehicleDocument == [] || password == [] || photo.None? then Invalid(MissingFields)
    else if |password| < 6 then Invalid(ShortPassword)
    else if |cnh| < 11 then Invalid(ShortCnh)
    else if |vehicleDocument| < 5 then Invalid(ShortDocument)
    else if !IsValidImageFile(photo.value) then Invalid(InvalidImage)
    else Ready(cnh, vehicleDocument, password, photo.value)
  }

  /** The record `handleRegistration` queues: the checked fields, the photo's name and size, status pending. */
  function NewRegistration(s: Submission, id: int, date: string): (g: Registration)
    requires s.Ready?
    ensures g.status == Pending && g.processedDate == None && g.id == id && g.registrationDate == date
    ensures g.cnh == s.cnh && g.vehicleDocument == s.vehicleDocument && g.password == Some(s.password)
    ensures g.photoName == s.photo.name && g.photoSize == s.photo.size
  {
    Registration(id, s.cnh, s.vehicleDocument, Some(s.password), s.photo.name, s.photo.size, date, Pending, None)
  }

  /** The screen's module state: its copy of the pending queue. */
  class RegistrationScreen {
    var pending: seq<Registration>

    /**
     * Page load (`loadPendingRegistrations`): a stored queue replaces the empty one; a missing key
     * keeps it; unreadable text throws inside the load handler and also leaves it empty.
     */
    constructor (store: LocalStore)
      ensures pending == if store.pendingRegistrations.Stored? then store.pendingRegistrations.items else []
    {
      pending := [];
      if store.pendingRegistrations.Stored? {
        pending := store.pendingRegistrations.items;
      }
    }

    /**
     * `handleRegistration`: only a submission that passes every check appends one record to the end of
     * the queue and writes the whole queue back; any failed check changes nothing.
     */
    method HandleRegistration(store: LocalStore, cnhInput: string, documentInput: string, passwordInput: string,
                              photo: Option<PhotoFile>, now: int, date: string) returns (r: Submission)
      modifies this, store`pendingRegistrations
      ensures r == Validate(cnhInput, documentInput, passwordInput, photo)
      ensures r.Ready? ==> pending == old(pending) + [NewRegistration(r, now, date)]
      ensures r.Ready? ==> store.pendingRegistrations == Stored(pending)
      ensures r.Invalid? ==> pending == old(pending) && store.pendingRegistrations == old(store.pendingRegistrations)
    {
      r := Validate(cnhInput, documentInput, passwordInput, photo);
      if r.Invalid? {
        return;
      }
      Enqueue(store, NewRegistration(r, now, date));
    }

    /** `pendingRegistrations.push(registrationData)` followed by `savePendingRegistrations`. */
    method Enqueue(store: LocalStore, g: Registration)
      modifies this, store`pendingRegistrations
      ensures pending == old(pending) + [g]
      ensures store.pendingRegistrations == Stored(pending)
    {
      pending := pending + [g];
      store.pendingRegistrations := Stored(pending);
    }
  }
}
