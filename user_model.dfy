/** The two helpers the User schema adds (app/models/user.js): the lookup by
    email and the password check. */
module UserModel {
  import opened Wrappers
  import opened Tables
  import opened Records

  function EmailIs(email: string): User -> bool {
    (u: User) => u.email == email
  }

  /** `User.findByEmail(email)`, a `findOne({ email })`: the first stored user
      registered under `email`, or none when nobody is. */
  function FindByEmail(users: seq<User>, email: string): (r: Option<User>)
    ensures r.Some? ==> r.value.email == email
    ensures r.Some? ==> exists k :: 0 <= k < |users| && users[k] == r.value && forall j :: 0 <= j < k ==> users[j].email != email
    ensures r.None? <==> forall k :: 0 <= k < |users| ==> users[k].email != email
  {
    match FirstIndex(users, EmailIs(email))
    case Some(k) => Some(users[k])
    case None => None
  }

  const PasswordMismatch := "Password mismatch"

  /** `user.comparePassword(p)`: the stored password and `p` are compared as
      plain strings; on a match the same user document comes back, otherwise
      Boom's unauthorized error is thrown. */
  function ComparePassword(u: User, password: string): (r: Result<User>)
    ensures r.Ok? <==> u.password == password
    ensures r.Ok? ==> r.value == u
    ensures r.Err? ==> r.error == Unauthorized(PasswordMismatch)
  {
    if u.password == password then Ok(u) else Err(Unauthorized(PasswordMismatch))
  }
}
