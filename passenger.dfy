/** The passenger screen: the stored account list, registration (lookup or append) and login. */
module Passenger {

  import opened Wrappers
  import opened Text
  import opened Lists
  import opened Store

  /** The two accounts a fresh browser is seeded with. */
  const DefaultPassengers: seq<Passenger> := [
    Passenger("11999999999", "123456", "Jo\U{E3}o Silva", true),
    Passenger("11888888888", "senha123", "Maria Santos", true)
  ]

  /**
   * `loadRegisteredUsers`: a missing key is seeded with the two default accounts, unreadable text is reset
   * to the empty list, and a stored list is left untouched; afterwards the list is always readable.
   */
  method LoadRegisteredUsers(store: LocalStore)
    modifies store`passengers
    ensures old(store.passengers).Missing? ==> store.passengers == Stored(DefaultPassengers)
    ensures old(store.passengers).Garbled? ==> store.passengers == Stored([])
    ensures old(store.passengers).Stored? ==> store.passengers == old(store.passengers)
    ensures ReadList(store.passengers).Some?
  {
    match store.passengers
    case Missing =>
      store.passengers := Stored(DefaultPassengers);
    case Garbled =>
      store.passengers := Stored([]);
    case Stored(_) =>
  }

  predicate HasAccount(users: seq<Passenger>, phone: string)
  {
    exists i :: 0 <= i < |users| && users[i].phone == phone
  }

  /** The account `find` returns: the first in list order whose phone is `phone`. */
  function FirstAccount(users: seq<Passenger>, phone: string): (u: Passenger)
    requires HasAccount(users, phone)
    ensures u.phone == phone
    ensures exists i :: 0 <= i < |users| && users[i] == u && forall j :: 0 <= j < i ==> users[j].phone != phone
  {
    users[IndexOfKey(users, PassengerPhone, phone)]
  }

  datatype LoginOutcome =
    | Required      // a blank phone or password
    | Unreadable    // the stored list cannot be parsed, so the handler throws
    | NotFound
    | WrongPassword
    | Inactive
    | LoggedIn(session: Session)

  predicate LoginBlank(phoneInput: string, passwordInput: string)
  {
    Trim(phoneInput) == [] || Trim(passwordInput) == []
  }

  /** `handleLogin`'s decision: blank fields, then not found, wrong password, inactive, success. */
  function LoginDecision(users: Entry<Passenger>, phoneInput: string, passwordInput: string): (r: LoginOutcome)
    ensures r == Required <==> LoginBlank(phoneInput, passwordInput)
    ensures r == Unreadable <==> !LoginBlank(phoneInput, passwordInput) && users.Garbled?
    ensures r == NotFound <==>
      !LoginBlank(phoneInput, passwordInput) && !users.Garbled?
      && !HasAccount(ReadList(users).value, Digits(Trim(phoneInput)))
    ensures r == WrongPassword <==>
      !LoginBlank(phoneInput, passwordInput) && !users.Garbled?
      && HasAccount(ReadList(users).value, Digits(Trim(phoneInput)))
      && FirstAccount(ReadList(users).value, Digits(Trim(phoneInput))).password != Trim(passwordInput)
    ensures r == Inactive <==>
      !LoginBlank(phoneInput, passwordInput) && !users.Garbled?
      && HasAccount(ReadList(users).value, Digits(Trim(phoneInput)))
      && FirstAccount(ReadList(users).value, Digits(Trim(phoneInput))).password == Trim(passwordInput)
      && !FirstAccount(ReadList(users).value, Digits(Trim(phoneInput))).active
    ensures r.LoggedIn? <==>
      !LoginBlank(phoneInput, passwordInput) && !users.Garbled?
      && HasAccount(ReadList(users).value, Digits(Trim(phoneInput)))
      && FirstAccount(ReadList(users).value, Digits(Trim(phoneInput))).password == Trim(passwordInput)
      && FirstAccount(ReadList(users).value, Digits(Trim(phoneInput))).active
    ensures r.LoggedIn? ==>
      var u := FirstAccount(ReadList(users).value, Digits(Trim(phoneInput)));
      r.session == PassengerSession(u.name, u.phone)
  {
    var phone := Trim(phoneInput);
    var password := Trim(passwordInput);
    if phone == [] || password == [] then Required
    else match ReadList(users)
      case None => Unreadable
      case Some(list) =>
        var i := IndexOfKey(list, PassengerPhone, Digits(phone));
        if i == -1 then NotFound
        else
          var u := list[i];
          if u.password != password then WrongPassword
          else if !u.active then Inactive
          else LoggedIn(PassengerSession(u.name, u.phone))
  }

  /** `handleLogin` (passenger): only a successful decision writes the session. */
  method HandleLogin(store: LocalStore, phoneInput: string, passwordInput: string) returns (r: LoginOutcome)
    modifies store`session
    ensures r == LoginDecision(store.passengers, phoneInput, passwordInput)
    ensures r.LoggedIn? ==> store.session == Some(r.session) && r.session.PassengerSession?
    ensures !r.LoggedIn? ==> store.session == old(store.session)
  {
    var phone := Trim(phoneInput);
    var password := Trim(passwordInput);
    if phone == [] || password == [] {
      return Required;
    }
    var registeredUsers := ReadList(store.passengers);
    if registeredUsers.None? {
      return Unreadable;
    }
    var i := IndexOfKey(registeredUsers.value, PassengerPhone, Digits(phone));
    if i == -1 {
      return NotFound;
    }
    var user := registeredUsers.value[i];
    if user.password != password {
      return WrongPassword;
    }
    if !user.active {
      return Inactive;
    }
    r := LoggedIn(PassengerSession(user.name, user.phone));
    store.session := Some(r.session);
  }

  datatype RegisterOutcome =
    | FieldsRequired  // a blank name, phone or password
    | ListUnreadable  // the stored list cannot be parsed, so the handler throws
    | Duplicate       // an account already has these digits as its phone
    | Registered(account: Passenger)

  predicate RegisterBlank(nameInput: string, phoneInput: string, passwordInput: string)
  {
    Trim(nameInput) == [] || Trim(phoneInput) == [] || Trim(passwordInput) == []
  }

  /** `handleRegister`'s decision: blank fields, then a duplicate phone, else a new active account. */
  function RegisterDecision(users: Entry<Passenger>, nameInput: string, phoneInput: string, passwordInput: string): (r: RegisterOutcome)
    ensures r == FieldsRequired <==> RegisterBlank(nameInput, phoneInput, passwordInput)
    ensures r == ListUnreadable <==> !RegisterBlank(nameInput, phoneInput, passwordInput) && users.Garbled?
    ensures r == Duplicate <==>
      !RegisterBlank(nameInput, phoneInput, passwordInput) && !users.Garbled?
      && HasAccount(ReadList(users).value, Digits(Trim(phoneInput)))
    ensures r.Registered? <==>
      !RegisterBlank(nameInput, phoneInput, passwordInput) && !users.Garbled?
      && !HasAccount(ReadList(users).value, Digits(Trim(phoneInput)))
    ensures r.Registered? ==>
      r.account == Passenger(Digits(Trim(phoneInput)), Trim(passwordInput), Trim(nameInput), true)
  {
    var name := Trim(nameInput);
    var phone := Trim(phoneInput);
    var password := Trim(passwordInput);
    if name == [] || phone == [] || password == [] then FieldsRequired
    else match ReadList(users)
      case None => ListUnreadable
      case Some(list) =>
        var phoneNumbers := Digits(phone);
        if IndexOfKey(list, PassengerPhone, phoneNumbers) >= 0 then Duplicate
        else Registered(Passenger(phoneNumbers, password, name, true))
  }

  /** `handleRegister`: only a new phone appends one account to the end of the list and writes it back. */
  method HandleRegister(store: LocalStore, nameInput: string, phoneInput: string, passwordInput: string) returns (r: RegisterOutcome)
    modifies store`passengers
    ensures r == RegisterDecision(old(store.passengers), nameInput, phoneInput, passwordInput)
    ensures r.Registered? ==> store.passengers == Stored(ReadList(old(store.passengers)).value + [r.account])
    ensures !r.Registered? ==> store.passengers == old(store.passengers)
  {
    var name := Trim(nameInput);
    var phone := Trim(phoneInput);
    var password := Trim(passwordInput);
    if name == [] || phone == [] || password == [] {
      return FieldsRequired;
    }
    var registeredUsers := ReadList(store.passengers);
    if registeredUsers.None? {
      return ListUnreadable;
    }
    var phoneNumbers := Digits(phone);
    if IndexOfKey(registeredUsers.value, PassengerPhone, phoneNumbers) >= 0 {
      return Duplicate;
    }
    var newUser := Passenger(phoneNumbers, password, name, true);
    r := Registered(newUser);
    store.passengers := Stored(registeredUsers.value + [newUser]);
  }

  /**
   * The round trip: after a successful registration, logging in with any formatting of the same digits and
   * the same password finds the new account and succeeds with its session.
   */
  lemma RegisterThenLogin(users: seq<Passenger>, nameInput: string, phoneInput: string, passwordInput: string,
                          loginPhone: string, loginPassword: string)
    requires RegisterDecision(Stored(users), nameInput, phoneInput, passwordInput).Registered?
    requires Trim(loginPhone) != [] && Digits(loginPhone) == Digits(phoneInput)
    requires Trim(loginPassword) == Trim(passwordInput)
    ensures
      var u := RegisterDecision(Stored(users), nameInput, phoneInput, passwordInput).account;
      LoginDecision(Stored(users + [u]), loginPhone, loginPassword) == LoggedIn(PassengerSession(u.name, u.phone))
  {
    var u := RegisterDecision(Stored(users), nameInput, phoneInput, passwordInput).account;
    assert u.phone == Digits(Trim(phoneInput)) && !HasAccount(users, u.phone);
    assert u.password == Trim(passwordInput) && u.active;
    DigitsIgnoreTrim(loginPhone);
    DigitsIgnoreTrim(phoneInput);
    assert Digits(Trim(loginPhone)) == u.phone;
    NewAccountFoundFirst(users, u);
    assert Trim(loginPassword) != [];
    LoginSucceedsAt(users + [u], loginPhone, loginPassword, |users|);
  }

  /** The login succeeds when the first account with the digits holds the password and is active. */
  lemma LoginSucceedsAt(users: seq<Passenger>, phoneInput: string, passwordInput: string, i: nat)
    requires !LoginBlank(phoneInput, passwordInput)
    requires IndexOfKey(users, PassengerPhone, Digits(Trim(phoneInput))) == i
    requires i < |users| && users[i].password == Trim(passwordInput) && users[i].active
    ensures LoginDecision(Stored(users), phoneInput, passwordInput) == LoggedIn(PassengerSession(users[i].name, users[i].phone))
  {
  }

  /** An account appended behind a list where no account has its phone is the one a login by that phone finds. */
  lemma NewAccountFoundFirst(users: seq<Passenger>, u: Passenger)
    requires !HasAccount(users, u.phone)
    ensures IndexOfKey(users + [u], PassengerPhone, u.phone) == |users|
    ensures (users + [u])[|users|] == u
  {
    forall i | 0 <= i < |users| ensures PassengerPhone(users[i]) != PassengerPhone(u) {
      assert users[i].phone != u.phone;
    }
    IndexOfKeyAppendFresh(users, PassengerPhone, u);
  }
}
