/**
 * How the screens fit together through local storage: a driver registers, waits for review,
 * is approved by the administrator and then signs in with a credential derived from the CNH.
 */
module Workflow {

  import opened Wrappers
  import opened Text
  import opened Lists
  import opened Store
  import DriverRegistration
  import Admin
  import DriverLogin
  import DriverDashboard

  /** The credential the administrator's approval of `g` appends to the driver list. */
  function ApprovalCredential(g: Registration, date: string): (d: Driver)
    ensures d.phone == g.cnh && d.password == Admin.DefaultDriverPassword && d.status == "approved"
  {
    Admin.Credential(Admin.Processed(g, Admin.Approve, date))
  }

  /** A CNH made of digits only is its own login key: typing the CNH as the phone finds it. */
  lemma DigitCnhIsLoginKey(cnh: string)
    requires AllDigits(cnh)
    ensures DriverLogin.LoginKey(cnh) == cnh
  {
    DigitStringIsTrimmed(cnh);
    DigitsOfDigitString(cnh);
  }

  /**
   * While the registration waits in the queue and no driver has its CNH as phone, a login with
   * that CNH reports the review, whatever password is typed.
   */
  lemma PendingDriverIsUnderReview(drivers: seq<Driver>, regs: seq<Registration>, g: Registration,
                                   phoneInput: string, passwordInput: string)
    requires g in regs
    requires !DriverLogin.HasDriver(drivers, g.cnh)
    requires DriverLogin.LoginKey(phoneInput) == g.cnh && g.cnh != []
    requires Trim(passwordInput) != []
    ensures DriverLogin.Decide(Stored(drivers), Stored(regs), phoneInput, passwordInput) == DriverLogin.UnderReview
  {
    var i :| 0 <= i < |regs| && regs[i] == g;
    assert RegistrationCnh(regs[i]) == g.cnh;
    forall j | 0 <= j < |drivers| ensures DriverPhone(drivers[j]) != g.cnh {
      assert drivers[j].phone != g.cnh;
    }
    assert Trim(phoneInput) != [];
    DriverLogin.PendingKeyUnderReview(drivers, regs, phoneInput, passwordInput);
  }

  /** With no driver holding the CNH as phone yet, the appended credential is the first match for it. */
  lemma NewCredentialFoundFirst(drivers: seq<Driver>, g: Registration, date: string)
    requires !DriverLogin.HasDriver(drivers, g.cnh)
    ensures DriverLogin.HasDriver(drivers + [ApprovalCredential(g, date)], g.cnh)
    ensures DriverLogin.FirstDriver(drivers + [ApprovalCredential(g, date)], g.cnh) == ApprovalCredential(g, date)
  {
    var c := ApprovalCredential(g, date);
    var all := drivers + [c];
    assert forall i :: 0 <= i < |drivers| ==> DriverPhone(drivers[i]) != DriverPhone(c);
    IndexOfKeyAppendFresh(drivers, DriverPhone, c);
    assert all[|drivers|] == c;
  }

  /**
   * After the approval, typing the CNH as phone and "123456" as password signs the new driver in,
   * provided no earlier driver already has the CNH as phone; the session carries the default rating.
   */
  lemma ApprovedDriverCanLogIn(drivers: seq<Driver>, pending: Entry<Registration>, g: Registration, date: string,
                               phoneInput: string, passwordInput: string)
    requires !DriverLogin.HasDriver(drivers, g.cnh)
    requires DriverLogin.LoginKey(phoneInput) == g.cnh && g.cnh != []
    requires Trim(passwordInput) == Admin.DefaultDriverPassword
    ensures DriverLogin.Decide(Stored(drivers + [ApprovalCredential(g, date)]), pending, phoneInput, passwordInput)
      == DriverLogin.LoggedIn(DriverSession("Mototaxista " + Admin.LastFour(g.cnh), g.cnh, g.cnh, Admin.NewDriverRating, 0))
  {
    var c := ApprovalCredential(g, date);
    NewCredentialFoundFirst(drivers, g, date);
    DriverLogin.MatchSignsIn(drivers + [c], pending, phoneInput, passwordInput);
  }

  /**
   * The password chosen at registration is not carried over: after the approval, any password
   * other than "123456" is refused.
   */
  lemma ApprovalIgnoresChosenPassword(drivers: seq<Driver>, pending: Entry<Registration>, g: Registration, date: string,
                                      phoneInput: string, passwordInput: string)
    requires !DriverLogin.HasDriver(drivers, g.cnh)
    requires DriverLogin.LoginKey(phoneInput) == g.cnh && g.cnh != []
    requires Trim(passwordInput) != [] && Trim(passwordInput) != Admin.DefaultDriverPassword
    ensures DriverLogin.Decide(Stored(drivers + [ApprovalCredential(g, date)]), pending, phoneInput, passwordInput)
      == DriverLogin.WrongPassword
  {
    var c := ApprovalCredential(g, date);
    NewCredentialFoundFirst(drivers, g, date);
    DriverLogin.PasswordBeforeStatus(drivers + [c], pending, phoneInput, passwordInput);
  }

  /**
   * A CNH holding any non-digit (a dot, a dash, a letter) passes the registration's length check,
   * but its credential can never be matched: every login decides as if it were not there.
   */
  lemma NonDigitCnhCredentialUnreachable(drivers: seq<Driver>, pending: Entry<Registration>, g: Registration, date: string,
                                         phoneInput: string, passwordInput: string)
    requires !AllDigits(g.cnh)
    ensures DriverLogin.Decide(Stored(drivers + [ApprovalCredential(g, date)]), pending, phoneInput, passwordInput)
      == DriverLogin.Decide(Stored(drivers), pending, phoneInput, passwordInput)
  {
    DriverLogin.AppendedDriverUnseen(drivers, ApprovalCredential(g, date), pending, phoneInput, passwordInput);
  }

  /**
   * Approving a second registration with a CNH some driver already uses as phone (or approving the
   * same CNH twice) appends a credential that no login ever reaches: the first driver wins.
   */
  lemma RepeatedCnhApprovalShadowed(drivers: seq<Driver>, pending: Entry<Registration>, g: Registration, date: string,
                                    phoneInput: string, passwordInput: string)
    requires DriverLogin.HasDriver(drivers, g.cnh)
    ensures DriverLogin.Decide(Stored(drivers + [ApprovalCredential(g, date)]), pending, phoneInput, passwordInput)
      == DriverLogin.Decide(Stored(drivers), pending, phoneInput, passwordInput)
  {
    DriverLogin.AppendedDriverUnseen(drivers, ApprovalCredential(g, date), pending, phoneInput, passwordInput);
  }

  /** "123456" typed as is reads as "123456". */
  lemma DefaultPasswordIsTrimmed()
    ensures Trim(Admin.DefaultDriverPassword) == Admin.DefaultDriverPassword
  {
    assert AllDigits(Admin.DefaultDriverPassword);
    DigitStringIsTrimmed(Admin.DefaultDriverPassword);
  }

  /** The record a valid form queues holds the trimmed CNH, which for an all-digit CNH is the typed CNH's login key. */
  lemma RegisteredCnhIsLoginKey(cnhInput: string, documentInput: string, passwordInput: string,
                                photo: Option<DriverRegistration.PhotoFile>, id: int, registeredOn: string)
    requires DriverRegistration.Validate(cnhInput, documentInput, passwordInput, photo).Ready?
    requires AllDigits(Trim(cnhInput))
    ensures
      var g := DriverRegistration.NewRegistration(DriverRegistration.Validate(cnhInput, documentInput, passwordInput, photo), id, registeredOn);
      g.cnh == DriverLogin.LoginKey(cnhInput) && g.cnh != []
  {
    DigitsOfDigitString(Trim(cnhInput));
  }

  /**
   * End to end: a form that validates with an all-digit CNH yields a pending record; once it is
   * approved, typing the same CNH and "123456" on the driver login screen signs the driver in.
   */
  lemma RegisterApproveLogIn(cnhInput: string, documentInput: string, passwordInput: string, photo: Option<DriverRegistration.PhotoFile>,
                             id: int, registeredOn: string, approvedOn: string, drivers: seq<Driver>, pending: Entry<Registration>)
    requires DriverRegistration.Validate(cnhInput, documentInput, passwordInput, photo).Ready?
    requires AllDigits(Trim(cnhInput))
    requires !DriverLogin.HasDriver(drivers, Trim(cnhInput))
    ensures
      var g := DriverRegistration.NewRegistration(DriverRegistration.Validate(cnhInput, documentInput, passwordInput, photo), id, registeredOn);
      DriverLogin.Decide(Stored(drivers + [ApprovalCredential(g, approvedOn)]), pending, cnhInput, Admin.DefaultDriverPassword).LoggedIn?
  {
    var g := DriverRegistration.NewRegistration(DriverRegistration.Validate(cnhInput, documentInput, passwordInput, photo), id, registeredOn);
    RegisteredCnhIsLoginKey(cnhInput, documentInput, passwordInput, photo, id, registeredOn);
    DefaultPasswordIsTrimmed();
    ApprovedDriverCanLogIn(drivers, pending, g, approvedOn, cnhInput, Admin.DefaultDriverPassword);
  }

  /** A freshly approved driver's dashboard shows no rides, the 4.5 rating and no earnings. */
  lemma NewDriverDashboard(g: Registration, date: string)
    ensures DriverDashboard.Stats(DriverDashboard.CurrentUser(Some(DriverLogin.SessionFor(ApprovalCredential(g, date)))))
      == Some(DriverDashboard.Statistics(0, Admin.NewDriverRating, 0))
  {
  }
}
