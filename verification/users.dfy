/** The user-record list operations behind `/signup`, `/login`,
    `/record-purchase` and `/change-password`, with the users file replaced by
    the sequence it holds. */
module Users {
  import opened Common
  import opened Cart

  datatype User = User(name: string, email: string, password: string, purchases: seq<CartItem>)

  /** A user record with its password field stripped. */
  datatype SafeUser = SafeUser(name: string, email: string, purchases: seq<CartItem>)

  /** The administrator account, loaded from the admin credentials file. */
  datatype Admin = Admin(email: string, password: string)

  function Safe(u: User): SafeUser {
    SafeUser(u.name, u.email, u.purchases)
  }

  predicate UniqueEmails(users: seq<User>) {
    forall i, j :: 0 <= i < j < |users| ==> users[i].email != users[j].email
  }

  predicate Registered(users: seq<User>, email: string) {
    exists i :: 0 <= i < |users| && users[i].email == email
  }

  /** `findIndex(u => u.email === email)`: the first record with that email. */
  function FindByEmail(users: seq<User>, email: string): (r: Option<nat>)
    ensures r.None? <==> !Registered(users, email)
    ensures r.Some? ==> r.value < |users| && users[r.value].email == email
    ensures r.Some? ==> forall j :: 0 <= j < r.value ==> users[j].email != email
  {
    if users == [] then None
    else if users[0].email == email then Some(0)
    else match FindByEmail(users[1..], email)
      case None => None
      case Some(i) => Some(i + 1)
  }

  /** `find(u => u.email === email && u.password === password)`. */
  function FindByCredentials(users: seq<User>, email: string, password: string): (r: Option<nat>)
    ensures r.None? <==> forall i :: 0 <= i < |users| ==> !(users[i].email == email && users[i].password == password)
    ensures r.Some? ==> r.value < |users| && users[r.value].email == email && users[r.value].password == password
    ensures r.Some? ==> forall j :: 0 <= j < r.value ==> !(users[j].email == email && users[j].password == password)
  {
    if users == [] then None
    else if users[0].email == email && users[0].password == password then Some(0)
    else match FindByCredentials(users[1..], email, password)
      case None => None
      case Some(i) => Some(i + 1)
  }

  // ---------------------------------------------------------------- signup

  datatype SignupError = MissingFields | EmailTaken

  /** `/signup`: all three fields are required, an email may be registered
      once, and a new user starts with no purchases. */
  function Signup(users: seq<User>, name: string, email: string, password: string)
    : (r: Result<seq<User>, SignupError>)
    ensures r == Err(MissingFields) <==> !(Truthy(name) && Truthy(email) && Truthy(password))
    ensures r == Err(EmailTaken) <==>
              Truthy(name) && Truthy(email) && Truthy(password) && Registered(users, email)
    ensures r.Ok? ==> |r.value| == |users| + 1 && r.value[..|users|] == users
    ensures r.Ok? ==> r.value[|users|] == User(name, email, password, [])
  {
    if !(Truthy(name) && Truthy(email) && Truthy(password)) then Err(MissingFields)
    else if FindByEmail(users, email).Some? then Err(EmailTaken)
    else Ok(users + [User(name, email, password, [])])
  }

  /** Signup keeps the emails of the users file distinct. */
  lemma SignupKeepsEmailsUnique(users: seq<User>, name: string, email: string, password: string)
    requires UniqueEmails(users)
    ensures Signup(users, name, email, password).Ok? ==> UniqueEmails(Signup(users, name, email, password).value)
  {
  }

  // ----------------------------------------------------------------- login

  datatype LoginError =
    | InvalidAdminCredentials
    | UseAdminLogin
    | MissingCredentials
    | InvalidCredentials

  datatype LoginResult =
    | AdminSession(name: string, email: string)
    | UserSession(user: SafeUser)
    | LoginDenied(error: LoginError)

  /** `/login`: the admin role is checked against the admin credentials only;
      the admin email may not log in as a user; otherwise the first user with
      that email and password is returned without its password. */
  function Login(users: seq<User>, admin: Admin, email: string, password: string, role: string)
    : (r: LoginResult)
    ensures r.AdminSession? <==> role == "admin" && email == admin.email && password == admin.password
    ensures r.AdminSession? ==> r == AdminSession("Admin", admin.email)
    ensures r == LoginDenied(InvalidAdminCredentials) <==>
              role == "admin" && !(email == admin.email && password == admin.password)
    ensures r == LoginDenied(UseAdminLogin) <==> role != "admin" && email == admin.email
    ensures r == LoginDenied(MissingCredentials) <==>
              role != "admin" && email != admin.email && !(Truthy(email) && Truthy(password))
    ensures r == LoginDenied(InvalidCredentials) <==>
              role != "admin" && email != admin.email && Truthy(email) && Truthy(password)
              && forall i :: 0 <= i < |users| ==> !(users[i].email == email && users[i].password == password)
    ensures r.UserSession? <==>
              role != "admin" && email != admin.email && Truthy(email) && Truthy(password)
              && exists i :: 0 <= i < |users| && users[i].email == email && users[i].password == password
    ensures r.UserSession? ==>
              exists i :: 0 <= i < |users| && users[i].email == email && users[i].password == password
                          && r.user == Safe(users[i])
                          && forall j :: 0 <= j < i ==> !(users[j].email == email && users[j].password == password)
  {
    if role == "admin" then
      if email == admin.email && password == admin.password then AdminSession("Admin", admin.email)
      else LoginDenied(InvalidAdminCredentials)
    else if email == admin.email then LoginDenied(UseAdminLogin)
    else if !Truthy(email) || !Truthy(password) then LoginDenied(MissingCredentials)
    else match FindByCredentials(users, email, password)
      case None => LoginDenied(InvalidCredentials)
      case Some(i) => UserSession(Safe(users[i]))
  }

  /** A freshly signed-up user can log in with the password they chose and
      sees their own record with no purchases. */
  lemma SignupThenLogin(users: seq<User>, admin: Admin, name: string, email: string, password: string, role: string)
    requires Signup(users, name, email, password).Ok?
    requires role != "admin" && email != admin.email
    ensures Login(Signup(users, name, email, password).value, admin, email, password, role)
            == UserSession(SafeUser(name, email, []))
  {
  }

  // -------------------------------------------------------- record-purchase

  datatype UpdateError = UserNotFound | IncorrectPassword

  datatype PurchaseRecorded = PurchaseRecorded(users: seq<User>, user: SafeUser)

  /** `/record-purchase`: the first user with the email gets the new purchases
      appended to their history; every other record is untouched. */
  function RecordPurchase(users: seq<User>, email: string, purchases: seq<CartItem>)
    : (r: Result<PurchaseRecorded, UpdateError>)
    ensures r.Err? <==> !Registered(users, email)
    ensures r.Err? ==> r.error == UserNotFound
    ensures r.Ok? ==>
              var i := FindByEmail(users, email).value;
              && |r.value.users| == |users|
              && r.value.users[i] == users[i].(purchases := users[i].purchases + purchases)
              && r.value.user == Safe(r.value.users[i])
              && (forall j :: 0 <= j < |users| && j != i ==> r.value.users[j] == users[j])
  {
    match FindByEmail(users, email)
    case None => Err(UserNotFound)
    case Some(i) =>
      var updated := users[i].(purchases := users[i].purchases + purchases);
      Ok(PurchaseRecorded(users[i := updated], Safe(updated)))
  }

  /** Recording purchases never rewrites history: each user's old purchase
      list is a prefix of the new one. */
  lemma RecordPurchaseAppendOnly(users: seq<User>, email: string, purchases: seq<CartItem>)
    requires RecordPurchase(users, email, purchases).Ok?
    ensures forall j :: 0 <= j < |users| ==>
              var after := RecordPurchase(users, email, purchases).value.users[j];
              && after.email == users[j].email
              && after.name == users[j].name
              && after.password == users[j].password
              && users[j].purchases <= after.purchases
  {
  }

  /** Recording two batches one after the other is the same as recording
      them together. */
  lemma RecordPurchaseTwice(users: seq<User>, email: string, a: seq<CartItem>, b: seq<CartItem>)
    requires RecordPurchase(users, email, a).Ok?
    ensures RecordPurchase(RecordPurchase(users, email, a).value.users, email, b)
            == RecordPurchase(users, email, a + b)
  {
    var i := FindByEmail(users, email).value;
    var first := users[i].(purchases := users[i].purchases + a);
    var us := users[i := first];
    FindAfterUpdate(users, email, i, first);
    var second := first.(purchases := first.purchases + b);
    assert users[i].purchases + a + b == users[i].purchases + (a + b);
    assert us[i := second] == users[i := second];
  }

  /** Rewriting the first record with an email, keeping the email, keeps it
      the first record with that email. */
  lemma FindAfterUpdate(users: seq<User>, email: string, i: nat, u: User)
    requires FindByEmail(users, email) == Some(i) && u.email == email
    ensures FindByEmail(users[i := u], email) == Some(i)
  {
    var us := users[i := u];
    assert us[i].email == email;
    assert forall j :: 0 <= j < i ==> us[j] == users[j];
  }

  // -------------------------------------------------------- change-password

  /** `/change-password`: the first user with the email must present their
      current password; only that record's password changes. */
  function ChangePassword(users: seq<User>, email: string, current: string, newPassword: string)
    : (r: Result<seq<User>, UpdateError>)
    ensures r == Err(UserNotFound) <==> !Registered(users, email)
    ensures r == Err(IncorrectPassword) <==>
              Registered(users, email) && users[FindByEmail(users, email).value].password != current
    ensures r.Ok? ==>
              var i := FindByEmail(users, email).value;
              && users[i].password == current
              && |r.value| == |users|
              && r.value[i] == users[i].(password := newPassword)
              && (forall j :: 0 <= j < |users| && j != i ==> r.value[j] == users[j])
  {
    match FindByEmail(users, email)
    case None => Err(UserNotFound)
    case Some(i) =>
      if users[i].password != current then Err(IncorrectPassword)
      else Ok(users[i := users[i].(password := newPassword)])
  }

  /** Changing a password and changing it back restores the users file. */
  lemma ChangePasswordRoundTrip(users: seq<User>, email: string, current: string, newPassword: string)
    requires ChangePassword(users, email, current, newPassword).Ok?
    ensures ChangePassword(ChangePassword(users, email, current, newPassword).value, email, newPassword, current)
            == Ok(users)
  {
    var i := FindByEmail(users, email).value;
    var us := ChangePassword(users, email, current, newPassword).value;
    FindAfterUpdate(users, email, i, users[i].(password := newPassword));
    assert us[i := us[i].(password := current)] == users;
  }

  /** After a password change the new password logs the user in to the
      record that was changed. */
  lemma ChangePasswordThenLogin(users: seq<User>, admin: Admin, email: string, current: string, newPassword: string)
    requires ChangePassword(users, email, current, newPassword).Ok?
    requires email != admin.email && Truthy(email) && Truthy(newPassword)
    ensures Login(ChangePassword(users, email, current, newPassword).value, admin, email, newPassword, "user").UserSession?
    ensures var i := FindByEmail(users, email).value;
            Login(ChangePassword(users, email, current, newPassword).value, admin, email, newPassword, "user").user
            == Safe(users[i])
  {
  }
}
