/** The account handlers of app/controllers/accounts.js: sign-up, the settings
    page and its update, account deletion and login. A handler's reply is
    modelled by the redirect target or view data it produces; cookies and
    views are not modelled. */
module AccountsController {
  import opened Wrappers
  import opened Tables
  import opened Records
  import opened Store
  import opened UserModel
  import opened DateFunctionality

  /** The validated sign-up and settings form; `userType` is optional. */
  datatype AccountForm = AccountForm(firstName: string, lastName: string, email: string, password: string,
                                     userType: Option<string>)

  const EmailInUse := "Email address already in use"
  const NotRegistered := "Email address is not registered"
  const HomePath := "/home"
  const SettingsPath := "/settings"
  const AccountDeletedPath := "/accountDeleted"
  const AdminDashboardPath := "/adminDashboard"
  const ReportPath := "/report"

  /** A successful sign-up or login: the id set in the session cookie and the redirect target. */
  datatype SignedIn = SignedIn(cookie: Id, redirect: string)

  // ----- Sign-up -----

  /** Lines 61-67: an account is an admin only when the form asked for it explicitly. */
  function AccountType(userType: Option<string>): (t: string)
    ensures t == "Admin" <==> userType == Some("Admin")
    ensures t == "User" <==> userType != Some("Admin")
  {
    if userType.Some? && userType.value == "Admin" then "Admin" else "User"
  }

  /** The document of lines 70-78: never updated, never logged in, no records yet. */
  function NewAccount(f: AccountForm, id: Id): User {
    User(id, f.firstName, f.lastName, f.email, f.password, Null, None, Some(AccountType(f.userType)), 0)
  }

  /** The user table after a sign-up: unchanged when the email is taken. */
  function Registered(users: seq<User>, next: Id, f: AccountForm): seq<User> {
    if FindByEmail(users, f.email).Some? then users else users + [NewAccount(f, next)]
  }

  /** No two users share an email address. */
  predicate EmailsUnique(users: seq<User>) {
    forall i, j :: 0 <= i < j < |users| ==> users[i].email != users[j].email
  }

  // ----- Settings -----

  /** The settings page data of lines 115-121. */
  datatype SettingsView = SettingsView(user: User, successNotification: Option<string>, lastUpdated: Stamp,
                                       adminUser: bool)

  /** Lines 105-113 at time `now` (milliseconds): no notification when the
      last update is stored as `null`; otherwise "true" within two seconds of
      it. A missing stamp compares as NaN, so it gives "false". */
  function Notification(now: int, lastUpdated: Stamp): (r: Option<string>)
    ensures r.None? <==> lastUpdated.Null?
    ensures r == Some("true") <==> lastUpdated.Millis? && now - 2000 < lastUpdated.ms
    ensures r.Some? ==> r == Some("true") || r == Some("false")
  {
    match lastUpdated
    case Null => None
    case Undefined => Some("false")
    case Millis(ms) => if now - 2000 < ms then Some("true") else Some("false")
  }

  /** `showSettings`, lines 91-123: `user.userType` is read before the `if (user)`
      test, so an unknown id throws. */
  function ShowSettings(users: seq<User>, id: Id, now: int): (r: Result<SettingsView>)
    ensures r.Err? <==> id !in Keys(users, UserKey)
    ensures r.Err? ==> r.error == TypeError
    ensures r.Ok? ==>
      && r.value.user in users && r.value.user.id == id
      && r.value.lastUpdated == r.value.user.lastUpdated
      && (r.value.adminUser <==> r.value.user.userType == Some("Admin"))
      && r.value.successNotification == Notification(now, r.value.user.lastUpdated)
  {
    match FindByKey(users, UserKey, id)
    case None => Err(TypeError)
    case Some(u) => Ok(SettingsView(u, Notification(now, u.lastUpdated), u.lastUpdated, u.userType == Some("Admin")))
  }

  /** Lines 152-159: the five form fields copied over (an absent `userType`
      unsets it) and the update time stamped. */
  function Edited(u: User, f: AccountForm, now: int): User {
    u.(firstName := f.firstName, lastName := f.lastName, email := f.email, password := f.password,
       userType := f.userType, lastUpdated := Millis(now))
  }

  // ----- Account deletion -----

  /** Lines 205-214: where the handler sends the logged-in user, read before the
      deletion; `None` is a handler that returns nothing. */
  function DeleteRedirect(loggedInUser: Option<User>, userId: Id): (r: Result<Option<string>>)
    ensures r.Err? <==> loggedInUser.None?
    ensures r.Err? ==> r.error == TypeError
    ensures r == Ok(Some(AccountDeletedPath)) <==>
      loggedInUser.Some? && (loggedInUser.value.id == userId || loggedInUser.value.userType == Some("User"))
    ensures r == Ok(Some(AdminDashboardPath)) <==>
      loggedInUser.Some? && loggedInUser.value.id != userId && loggedInUser.value.userType == Some("Admin")
    ensures r == Ok(None) <==>
      loggedInUser.Some? && loggedInUser.value.id != userId
      && loggedInUser.value.userType != Some("User") && loggedInUser.value.userType != Some("Admin")
  {
    match loggedInUser
    case None => Err(TypeError)
    case Some(li) =>
      if li.id != userId then
        if li.userType == Some("User") then Ok(Some(AccountDeletedPath))
        else if li.userType == Some("Admin") then Ok(Some(AdminDashboardPath))
        else Ok(None)
      else Ok(Some(AccountDeletedPath))
  }

  // ----- Login -----

  /** Lines 241-247: the registered user for the email whose password matches. */
  function Authenticate(users: seq<User>, email: string, password: string): (r: Result<User>)
    ensures r == Err(Unauthorized(NotRegistered)) <==> forall k :: 0 <= k < |users| ==> users[k].email != email
    ensures r == Err(Unauthorized(PasswordMismatch)) <==>
      FindByEmail(users, email).Some? && FindByEmail(users, email).value.password != password
    ensures r.Ok? <==> FindByEmail(users, email).Some? && FindByEmail(users, email).value.password == password
    ensures r.Ok? ==> r.value in users && r.value.email == email && r.value.password == password
  {
    match FindByEmail(users, email)
    case None => Err(Unauthorized(NotRegistered))
    case Some(u) => ComparePassword(u, password)
  }

  /** The user saved at line 255: the same document with its login time set. */
  function LoggedIn(u: User, now: DateTime): User {
    u.(lastLogin := Some(FormatDateWithTime(now)))
  }

  // ----- The handlers that change the store -----

  /** `signup`, lines 47-87: the new user's id goes into the cookie and the
      reply redirects to `/home`; a taken email is reported on the sign-up view. */
  method Signup(db: Database, f: AccountForm) returns (r: Result<SignedIn>)
    requires db.Valid()
    modifies db`users, db`nextId
    ensures db.Valid()
    ensures db.users == Registered(old(db.users), old(db.nextId), f)
    ensures FindByEmail(old(db.users), f.email).Some? ==> r == Err(Unauthorized(EmailInUse)) && db.nextId == old(db.nextId)
    ensures FindByEmail(old(db.users), f.email).None? ==> r == Ok(SignedIn(old(db.nextId), HomePath)) && db.nextId == old(db.nextId) + 1
  {
    var checkEmailInUse := FindByEmail(db.users, f.email);
    if checkEmailInUse.Some? {
      return Err(Unauthorized(EmailInUse));
    }
    var accountType := "User";
    if f.userType.Some? {
      if f.userType.value == "Admin" {
        accountType := "Admin";
      }
    }
    var newUser := User(0, f.firstName, f.lastName, f.email, f.password, Null, None, Some(accountType), 0);
    var id := db.InsertUser(newUser);
    assert newUser.(id := id) == NewAccount(f, id);
    r := Ok(SignedIn(id, HomePath));
  }

  /** `updateSettings`, lines 147-163: an unknown id makes the first assignment throw. */
  method UpdateSettings(db: Database, id: Id, f: AccountForm, now: int) returns (r: Result<string>)
    requires db.Valid()
    modifies db`users
    ensures db.Valid()
    ensures FindByKey(old(db.users), UserKey, id).None? ==> r == Err(TypeError) && db.users == old(db.users)
    ensures FindByKey(old(db.users), UserKey, id).Some? ==>
      r == Ok(SettingsPath)
      && db.users == SaveByKey(old(db.users), UserKey, Edited(FindByKey(old(db.users), UserKey, id).value, f, now))
  {
    var user := FindByKey(db.users, UserKey, id);
    if user.None? {
      return Err(TypeError);
    }
    db.SaveUser(Edited(user.value, f, now));
    r := Ok(SettingsPath);
  }

  /** `deleteAccount`, lines 197-216: the deletion happens before the logged-in
      user is looked at, so it takes place even when the reply then throws. */
  method DeleteAccount(db: Database, userId: Id, loggedInId: Id) returns (r: Result<Option<string>>)
    requires db.Valid()
    modifies db`users
    ensures db.Valid()
    ensures db.users == DeleteByKey(old(db.users), UserKey, userId)
    ensures r == DeleteRedirect(FindByKey(old(db.users), UserKey, loggedInId), userId)
  {
    var loggedInUser := FindByKey(db.users, UserKey, loggedInId);
    db.DeleteUser(userId);
    r := DeleteRedirect(loggedInUser, userId);
  }

  /** `login`, lines 237-260: on success the login time is saved, the id goes
      into the cookie and the reply redirects to `/report`; both errors are
      reported on the login view and change nothing. */
  method Login(db: Database, email: string, password: string, now: DateTime) returns (r: Result<SignedIn>)
    requires db.Valid()
    modifies db`users
    ensures db.Valid()
    ensures Authenticate(old(db.users), email, password).Err? ==>
      r == Err(Authenticate(old(db.users), email, password).error) && db.users == old(db.users)
    ensures Authenticate(old(db.users), email, password).Ok? ==>
      var u := Authenticate(old(db.users), email, password).value;
      r == Ok(SignedIn(u.id, ReportPath)) && db.users == SaveByKey(old(db.users), UserKey, LoggedIn(u, now))
  {
    var user := FindByEmail(db.users, email);
    if user.None? {
      return Err(Unauthorized(NotRegistered));
    }
    var checked := ComparePassword(user.value, password);
    if checked.Err? {
      return Err(checked.error);
    }
    var lastLoginDateString := FormatDateWithTime(now);
    db.SaveUser(user.value.(lastLogin := Some(lastLoginDateString)));
    r := Ok(SignedIn(user.value.id, ReportPath));
  }

  // ----- Properties across handlers -----

  /** A sign-up never lets two accounts share an email. */
  lemma SignupKeepsEmailsUnique(users: seq<User>, next: Id, f: AccountForm)
    requires EmailsUnique(users)
    ensures EmailsUnique(Registered(users, next, f))
  {
    if FindByEmail(users, f.email).None? {
      var r := users + [NewAccount(f, next)];
      assert forall i :: 0 <= i < |users| ==> r[i] == users[i];
    }
  }

  /** Right after a successful sign-up, the new account can log in with the
      email and password it registered, and it is a plain user unless the
      form asked for an admin. */
  lemma SignupThenLogin(users: seq<User>, next: Id, f: AccountForm)
    requires FindByEmail(users, f.email).None?
    ensures Authenticate(Registered(users, next, f), f.email, f.password) == Ok(NewAccount(f, next))
    ensures NewAccount(f, next).userType == Some(if f.userType == Some("Admin") then "Admin" else "User")
  {
    var r := Registered(users, next, f);
    assert r == users + [NewAccount(f, next)];
    assert forall k :: 0 <= k < |users| ==> r[k].email != f.email;
    assert r[|users|].email == f.email;
    var found := FindByEmail(r, f.email);
    assert found.Some?;
    var k :| 0 <= k < |r| && r[k] == found.value && forall j :: 0 <= j < k ==> r[j].email != f.email;
    assert k == |users|;
  }

  /** A taken email leaves the table as it was. */
  lemma SignupTakenChangesNothing(users: seq<User>, next: Id, f: AccountForm, k: nat)
    requires k < |users| && users[k].email == f.email
    ensures Registered(users, next, f) == users
  {
  }

  /** The settings page shown at `later` after an update made at `now` reflects
      the form, and shows the "updated" notification exactly within two seconds. */
  lemma UpdateThenShow(users: seq<User>, next: Id, id: Id, f: AccountForm, now: int, later: int)
    requires KeysValid(users, UserKey, next)
    requires id in Keys(users, UserKey)
    ensures var v := ShowSettings(SaveByKey(users, UserKey, Edited(FindByKey(users, UserKey, id).value, f, now)), id, later);
      && v.Ok?
      && v.value.user.email == f.email && v.value.user.password == f.password
      && v.value.user.userType == f.userType
      && v.value.lastUpdated == Millis(now)
      && (v.value.successNotification == Some("true") <==> later - 2000 < now)
      && (v.value.adminUser <==> f.userType == Some("Admin"))
  {
    var e := Edited(FindByKey(users, UserKey, id).value, f, now);
    FindAfterSave(users, UserKey, e);
    KeysValidSameKeys(users, SaveByKey(users, UserKey, e), UserKey, next);
    var saved := SaveByKey(users, UserKey, e);
    var u := FindByKey(saved, UserKey, id).value;
    assert u == e;
  }

  /** Logging in keeps the credentials, so the same email and password log in again. */
  lemma LoginAgain(users: seq<User>, next: Id, email: string, password: string, now: DateTime)
    requires KeysValid(users, UserKey, next)
    requires Authenticate(users, email, password).Ok?
    ensures var u := Authenticate(users, email, password).value;
      Authenticate(SaveByKey(users, UserKey, LoggedIn(u, now)), email, password) == Ok(LoggedIn(u, now))
  {
    var u := Authenticate(users, email, password).value;
    var s := SaveByKey(users, UserKey, LoggedIn(u, now));
    var k :| 0 <= k < |users| && users[k] == u && forall j :: 0 <= j < k ==> users[j].email != email;
    SavedAt(users, next, k, LoggedIn(u, now));
    FirstWithEmail(s, k, email);
  }

  /** The first user with the email is the one `FindByEmail` finds. */
  lemma FirstWithEmail(users: seq<User>, k: nat, email: string)
    requires k < |users| && users[k].email == email
    requires forall j :: 0 <= j < k ==> users[j].email != email
    ensures FindByEmail(users, email) == Some(users[k])
  {
    var found := FindByEmail(users, email);
    var k' :| 0 <= k' < |users| && users[k'] == found.value && forall j :: 0 <= j < k' ==> users[j].email != email;
    assert k' == k;
  }

  /** With unique ids, saving a user whose id is at index `k` replaces that entry only. */
  lemma SavedAt(users: seq<User>, next: Id, k: nat, x: User)
    requires KeysValid(users, UserKey, next)
    requires k < |users| && users[k].id == x.id
    ensures var s := SaveByKey(users, UserKey, x);
      && |s| == |users| && s[k] == x
      && forall i :: 0 <= i < |users| && i != k ==> s[i] == users[i]
  {
    assert forall i :: 0 <= i < |users| ==> Keys(users, UserKey)[i] == users[i].id;
  }

  /** After a deletion the account is gone and every other account stays. */
  lemma DeletionRemovesOnlyThatAccount(users: seq<User>, userId: Id, u: User)
    ensures var r := DeleteByKey(users, UserKey, userId);
      && FindByKey(r, UserKey, userId).None?
      && (u in r <==> u in users && u.id != userId)
  {
  }
}
