/** The driver login screen: seeding of the stored driver list and the ordered login decision. */
module DriverLogin {

  import opened Wrappers
  import opened Text
  import opened Lists
  import opened Store

  /** The two drivers a fresh browser is seeded with. */
  const DefaultDrivers: seq<Driver> := [
    Driver("11999999999", "123456", "Jo\U{E3}o Silva", "12345678901", "approved", 48, 150),
    Driver("11888888888", "senha123", "Maria Santos", "98765432109", "approved", 49, 200)
  ]

  /**
   * `loadApprovedMototaxistas`: a missing key is seeded with the two default drivers, unreadable text is
   * reset to the empty list, and a stored list is left as it is; afterwards the list is always readable.
   */
  method LoadApprovedDrivers(store: LocalStore)
    modifies store`drivers
    ensures old(store.drivers).Missing? ==> store.drivers == Stored(DefaultDrivers)
    ensures old(store.drivers).Garbled? ==> store.drivers == Stored([])
    ensures old(store.drivers).Stored? ==> store.drivers == old(store.drivers)
    ensures ReadList(store.drivers).Some?
  {
    match store.drivers
    case Missing =>
      store.drivers := Stored(DefaultDrivers);
    case Garbled =>
      store.drivers := Stored([]);
    case Stored(_) =>
  }

  datatype LoginOutcome =
    | Required       // a blank phone or password
    | Unreadable     // a list the decision needs cannot be parsed, so the handler throws
    | UnderReview    // no driver has the phone, but a pending registration has it as CNH
    | NotRegistered
    | WrongPassword
    | NotApproved
    | LoggedIn(session: Session)

  predicate Blank(phoneInput: string, passwordInput: string)
  {
    Trim(phoneInput) == [] || Trim(passwordInput) == []
  }

  /** The lookup key: the trimmed input with every non-digit removed. */
  function LoginKey(phoneInput: string): (key: string)
    ensures AllDigits(key)
    ensures key == Digits(phoneInput)
  {
    DigitsIgnoreTrim(phoneInput);
    Digits(Trim(phoneInput))
  }

  predicate HasDriver(list: seq<Driver>, key: string)
  {
    exists i :: 0 <= i < |list| && list[i].phone == key
  }

  predicate HasPendingCnh(regs: seq<Registration>, key: string)
  {
    exists i :: 0 <= i < |regs| && regs[i].cnh == key
  }

  /** The driver `find` returns: the first in list order whose phone is the key. */
  function FirstDriver(list: seq<Driver>, key: string): (d: Driver)
    requires HasDriver(list, key)
    ensures d.phone == key
    ensures exists i :: 0 <= i < |list| && list[i] == d && forall j :: 0 <= j < i ==> list[j].phone != key
  {
    var i := IndexOfKey(list, DriverPhone, key);
    list[i]
  }

  /** The session record a successful login writes. */
  function SessionFor(d: Driver): Session
  {
    DriverSession(d.name, d.phone, d.cnh, d.rating, d.totalRides)
  }

  /**
   * `handleLogin`'s decision, in the order the source checks: blank fields; the first driver whose phone is
   * the key; if none, a pending registration with the key as CNH; then the password; then the status.
   */
  function Decide(drivers: Entry<Driver>, pending: Entry<Registration>, phoneInput: string, passwordInput: string): (r: LoginOutcome)
    ensures r == Required <==> Blank(phoneInput, passwordInput)
    ensures r.LoggedIn? ==> r.session.DriverSession?
  {
    var phone := Trim(phoneInput);
    var password := Trim(passwordInput);
    if phone == [] || password == [] then Required
    else match ReadList(drivers)
      case None => Unreadable
      case Some(list) =>
        var key := Digits(phone);
        var i := IndexOfKey(list, DriverPhone, key);
        if i == -1 then
          match ReadList(pending)
          case None => Unreadable
          case Some(regs) => if IndexOfKey(regs, RegistrationCnh, key) >= 0 then UnderReview else NotRegistered
        else Matched(list[i], password)
  }

  /** The outcome once the driver `find` returns is known: the password first, then the status. */
  function Matched(d: Driver, password: string): (r: LoginOutcome)
    ensures r == WrongPassword <==> d.password != password
    ensures r == NotApproved <==> d.password == password && d.status != "approved"
    ensures r.LoggedIn? <==> d.password == password && d.status == "approved"
    ensures r.LoggedIn? ==> r.session == SessionFor(d)
  {
    if d.password != password then WrongPassword
    else if d.status != "approved" then NotApproved
    else LoggedIn(SessionFor(d))
  }

  /** `handleLogin`: only a successful decision writes the session, with the matched driver's data. */
  method HandleLogin(store: LocalStore, phoneInput: string, passwordInput: string) returns (r: LoginOutcome)
    modifies store`session
    ensures r == Decide(store.drivers, store.pendingRegistrations, phoneInput, passwordInput)
    ensures r.LoggedIn? ==> store.session == Some(r.session) && r.session.DriverSession?
    ensures !r.LoggedIn? ==> store.session == old(store.session)
  {
    var phone := Trim(phoneInput);
    var password := Trim(passwordInput);
    if phone == [] || password == [] {
      return Required;
    }
    var approvedDrivers := ReadList(store.drivers);
    if approvedDrivers.None? {
      return Unreadable;
    }
    var key := Digits(phone);
    var i := IndexOfKey(approvedDrivers.value, DriverPhone, key);
    if i == -1 {
      var pendingRegistrations := ReadList(store.pendingRegistrations);
      if pendingRegistrations.None? {
        return Unreadable;
      }
      if IndexOfKey(pendingRegistrations.value, RegistrationCnh, key) >= 0 {
        return UnderReview;
      }
      return NotRegistered;
    }
    var driver := approvedDrivers.value[i];
    if driver.password != password {
      return WrongPassword;
    }
    if driver.status != "approved" {
      return NotApproved;
    }
    r := LoggedIn(SessionFor(driver));
    store.session := Some(r.session);
  }

  /**
   * Each outcome of the login decision, in both directions: which inputs and stored lists lead to it,
   * and the session a successful login writes.
   */
  lemma DecideCases(drivers: Entry<Driver>, pending: Entry<Registration>, phoneInput: string, passwordInput: string)
    ensures Decide(drivers, pending, phoneInput, passwordInput) == Required <==> Blank(phoneInput, passwordInput)
    ensures Decide(drivers, pending, phoneInput, passwordInput) == Unreadable <==>
      !Blank(phoneInput, passwordInput)
      && (drivers.Garbled? || (!HasDriver(ReadList(drivers).value, LoginKey(phoneInput)) && pending.Garbled?))
    ensures Decide(drivers, pending, phoneInput, passwordInput) == UnderReview <==>
      !Blank(phoneInput, passwordInput) && !drivers.Garbled? && !HasDriver(ReadList(drivers).value, LoginKey(phoneInput))
      && !pending.Garbled? && HasPendingCnh(ReadList(pending).value, LoginKey(phoneInput))
    ensures Decide(drivers, pending, phoneInput, passwordInput) == NotRegistered <==>
      !Blank(phoneInput, passwordInput) && !drivers.Garbled? && !HasDriver(ReadList(drivers).value, LoginKey(phoneInput))
      && !pending.Garbled? && !HasPendingCnh(ReadList(pending).value, LoginKey(phoneInput))
    ensures Decide(drivers, pending, phoneInput, passwordInput) == WrongPassword <==>
      !Blank(phoneInput, passwordInput) && !drivers.Garbled? && HasDriver(ReadList(drivers).value, LoginKey(phoneInput))
      && FirstDriver(ReadList(drivers).value, LoginKey(phoneInput)).password != Trim(passwordInput)
    ensures Decide(drivers, pending, phoneInput, passwordInput) == NotApproved <==>
      !Blank(phoneInput, passwordInput) && !drivers.Garbled? && HasDriver(ReadList(drivers).value, LoginKey(phoneInput))
      && FirstDriver(ReadList(drivers).value, LoginKey(phoneInput)).password == Trim(passwordInput)
      && FirstDriver(ReadList(drivers).value, LoginKey(phoneInput)).status != "approved"
    ensures Decide(drivers, pending, phoneInput, passwordInput).LoggedIn? <==>
      !Blank(phoneInput, passwordInput) && !drivers.Garbled? && HasDriver(ReadList(drivers).value, LoginKey(phoneInput))
      && FirstDriver(ReadList(drivers).value, LoginKey(phoneInput)).password == Trim(passwordInput)
      && FirstDriver(ReadList(drivers).value, LoginKey(phoneInput)).status == "approved"
    ensures Decide(drivers, pending, phoneInput, passwordInput).LoggedIn? ==>
      Decide(drivers, pending, phoneInput, passwordInput).session == SessionFor(FirstDriver(ReadList(drivers).value, LoginKey(phoneInput)))
  {
    if !Blank(phoneInput, passwordInput) && !drivers.Garbled? {
      var list := ReadList(drivers).value;
      var key := LoginKey(phoneInput);
      var i := IndexOfKey(list, DriverPhone, key);
      if i == -1 {
        assert !HasDriver(list, key);
        if !pending.Garbled? {
          var regs := ReadList(pending).value;
          assert IndexOfKey(regs, RegistrationCnh, key) >= 0 <==> HasPendingCnh(regs, key);
        }
      } else {
        assert HasDriver(list, key) && FirstDriver(list, key) == list[i];
        DecideFound(list, pending, phoneInput, passwordInput);
        assert Decide(drivers, pending, phoneInput, passwordInput) == Matched(list[i], Trim(passwordInput));
      }
    }
  }

  /** The password is compared before the status: a wrong password is reported whatever the driver's status. */
  lemma PasswordBeforeStatus(list: seq<Driver>, pending: Entry<Registration>, phoneInput: string, passwordInput: string)
    requires !Blank(phoneInput, passwordInput) && HasDriver(list, LoginKey(phoneInput))
    requires FirstDriver(list, LoginKey(phoneInput)).password != Trim(passwordInput)
    ensures Decide(Stored(list), pending, phoneInput, passwordInput) == WrongPassword
  {
  }

  /** A driver found first, whose password matches and who is approved, is signed in. */
  lemma MatchSignsIn(list: seq<Driver>, pending: Entry<Registration>, phoneInput: string, passwordInput: string)
    requires !Blank(phoneInput, passwordInput) && HasDriver(list, LoginKey(phoneInput))
    requires FirstDriver(list, LoginKey(phoneInput)).password == Trim(passwordInput)
    requires FirstDriver(list, LoginKey(phoneInput)).status == "approved"
    ensures Decide(Stored(list), pending, phoneInput, passwordInput) == LoggedIn(SessionFor(FirstDriver(list, LoginKey(phoneInput))))
  {
  }

  /** With no driver holding the key as phone, a pending registration holding it as CNH means the review. */
  lemma PendingKeyUnderReview(list: seq<Driver>, regs: seq<Registration>, phoneInput: string, passwordInput: string)
    requires !Blank(phoneInput, passwordInput)
    requires IndexOfKey(list, DriverPhone, LoginKey(phoneInput)) == -1
    requires IndexOfKey(regs, RegistrationCnh, LoginKey(phoneInput)) >= 0
    ensures Decide(Stored(list), Stored(regs), phoneInput, passwordInput) == UnderReview
  {
    assert ReadList(Stored(list)) == Some(list) && ReadList(Stored(regs)) == Some(regs);
    assert Digits(Trim(phoneInput)) == LoginKey(phoneInput);
  }

  /**
   * A driver appended behind the list plays no part in a login whose key it does not hold, nor in one
   * whose key an earlier driver already holds: `find` stops at the first match.
   */
  lemma AppendedDriverUnseen(list: seq<Driver>, d: Driver, pending: Entry<Registration>, phoneInput: string, passwordInput: string)
    requires d.phone != LoginKey(phoneInput) || HasDriver(list, LoginKey(phoneInput))
    ensures Decide(Stored(list + [d]), pending, phoneInput, passwordInput) == Decide(Stored(list), pending, phoneInput, passwordInput)
  {
    var key := LoginKey(phoneInput);
    if IndexOfKey(list, DriverPhone, key) >= 0 {
      EarlierDriverWins(list, d, pending, phoneInput, passwordInput);
    } else {
      IndexOfKeyAppendOther(list, DriverPhone, key, d);
      assert IndexOfKey(list + [d], DriverPhone, key) == -1;
    }
  }

  /** A login whose key some driver holds is decided by the first such driver alone. */
  lemma DecideFound(list: seq<Driver>, pending: Entry<Registration>, phoneInput: string, passwordInput: string)
    requires !Blank(phoneInput, passwordInput)
    requires IndexOfKey(list, DriverPhone, LoginKey(phoneInput)) >= 0
    ensures Decide(Stored(list), pending, phoneInput, passwordInput)
      == Matched(list[IndexOfKey(list, DriverPhone, LoginKey(phoneInput))], Trim(passwordInput))
  {
  }

  /** When the list already holds a driver with the key, the one appended behind it is never reached. */
  lemma EarlierDriverWins(list: seq<Driver>, d: Driver, pending: Entry<Registration>, phoneInput: string, passwordInput: string)
    requires IndexOfKey(list, DriverPhone, LoginKey(phoneInput)) >= 0
    ensures Decide(Stored(list + [d]), pending, phoneInput, passwordInput) == Decide(Stored(list), pending, phoneInput, passwordInput)
  {
    if !Blank(phoneInput, passwordInput) {
      var key := LoginKey(phoneInput);
      var i := IndexOfKey(list, DriverPhone, key);
      IndexOfKeyAppendKept(list, DriverPhone, key, [d]);
      assert (list + [d])[i] == list[i];
      DecideFound(list, pending, phoneInput, passwordInput);
      DecideFound(list + [d], pending, phoneInput, passwordInput);
    }
  }
}
