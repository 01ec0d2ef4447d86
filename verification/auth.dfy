/**
 The session and the sign-up and log-in forms. The id of the logged-in
 user is one of the store's documents; signing up appends a user and logs
 them in, logging in looks a user up by e-mail and password.
 */
module Auth {
  import opened ArrayOps
  import opened Text
  import opened Domain

  /** `currentUser`: the user whose id is the session's, if it resolves. */
  function CurrentUser(s: Store): (r: Option<User>)
    ensures s.currentUserId.None? ==> r.None?
    ensures r.Some? ==> r.value in s.users && s.currentUserId == Some(r.value.id)
    ensures s.currentUserId.Some? ==> (r.Some? <==> HasKey(s.users, UserId, s.currentUserId.value))
  {
    match s.currentUserId
    case None => None
    case Some(id) => FindByKey(s.users, UserId, id)
  }

  /** `requireAuth`: the session's user id; a missing or empty id is the
      condition on which the page is sent back to the log-in screen. */
  function RequireAuth(s: Store): (r: Result<Id>)
    ensures r.Ok? <==> s.currentUserId.Some? && s.currentUserId.value != ""
    ensures r.Ok? ==> s.currentUserId == Some(r.value)
    ensures r.Err? ==> r.error == Unauthenticated
  {
    match s.currentUserId
    case Some(id) => if id == "" then Err(Unauthenticated) else Ok(id)
    case None => Err(Unauthenticated)
  }

  /** `logOut`: forget the session; nothing else changes. */
  function LogOut(s: Store): (r: Store)
    ensures RequireAuth(r) == Err(Unauthenticated)
    ensures CurrentUser(r) == None
    ensures r.users == s.users && r.products == s.products
    ensures r.carts == s.carts && r.purchases == s.purchases
  {
    s.(currentUserId := None)
  }

  /** The e-mail as both forms read it: trimmed, then lower-cased. */
  function NormalizeEmail(raw: string): (r: string)
    ensures |r| <= |raw|
    ensures forall i :: 0 <= i < |r| ==> !IsUpper(r[i])
    ensures |r| > 0 ==> !IsSpace(r[0]) && !IsSpace(r[|r| - 1])
    ensures |r| == 0 <==> forall i :: 0 <= i < |raw| ==> IsSpace(raw[i])
  {
    Lower(Trim(raw))
  }

  /** A normalised e-mail normalises to itself, so a stored address can be
      typed back in as it is. */
  lemma NormalizeEmailIdempotent(raw: string)
    ensures NormalizeEmail(NormalizeEmail(raw)) == NormalizeEmail(raw)
  {
    var e := NormalizeEmail(raw);
    TrimNoop(e);
    LowerIdempotent(Trim(raw));
  }

  /** The sign-up form: all three fields are required, an e-mail that is
      already registered is refused, and otherwise exactly one user is
      appended under the fresh id and logged in. */
  function Signup(s: Store, rawEmail: string, password: string, rawUsername: string, freshId: Id): (r: Result<Store>)
    ensures r.Err? <==>
      NormalizeEmail(rawEmail) == "" || password == "" || Trim(rawUsername) == ""
      || HasKey(s.users, UserEmail, NormalizeEmail(rawEmail))
    ensures r.Err? && (NormalizeEmail(rawEmail) == "" || password == "" || Trim(rawUsername) == "") ==>
      r.error == MissingFields
    ensures r.Err? && NormalizeEmail(rawEmail) != "" && password != "" && Trim(rawUsername) != "" ==>
      r.error == EmailExists
    ensures r.Ok? ==>
      r.value.users == s.users + [User(freshId, NormalizeEmail(rawEmail), password, Trim(rawUsername))]
    ensures r.Ok? ==> r.value.currentUserId == Some(freshId)
    ensures r.Ok? ==> r.value.products == s.products && r.value.carts == s.carts && r.value.purchases == s.purchases
    ensures r.Ok? && UniqueBy(s.users, UserEmail) ==> UniqueBy(r.value.users, UserEmail)
    ensures r.Ok? && UniqueBy(s.users, UserId) && !HasKey(s.users, UserId, freshId) ==> UniqueBy(r.value.users, UserId)
  {
    var email := NormalizeEmail(rawEmail);
    var username := Trim(rawUsername);
    if email == "" || password == "" || username == "" then
      Err(MissingFields)
    else if IndexOfKey(s.users, UserEmail, email).Some? then
      Err(EmailExists)
    else
      Ok(s.(users := s.users + [User(freshId, email, password, username)], currentUserId := Some(freshId)))
  }

  /** The log-in form: the first user whose e-mail and password both match
      becomes the session's user. */
  function Login(s: Store, rawEmail: string, password: string): (r: Result<Store>)
    ensures r.Ok? <==> HasKey(s.users, Credentials, (NormalizeEmail(rawEmail), password))
    ensures r.Err? ==> r.error == InvalidCredentials
    ensures r.Ok? ==> exists i :: (
      && 0 <= i < |s.users|
      && s.users[i].email == NormalizeEmail(rawEmail) && s.users[i].password == password
      && !HasKey(s.users[..i], Credentials, (NormalizeEmail(rawEmail), password))
      && r.value == s.(currentUserId := Some(s.users[i].id)))
  {
    match FindByKey(s.users, Credentials, (NormalizeEmail(rawEmail), password))
    case None => Err(InvalidCredentials)
    case Some(u) => Ok(s.(currentUserId := Some(u.id)))
  }

  /** A user who has just signed up can log in with the same e-mail, as
      typed or as stored, and the password, and is then the session's user. */
  lemma SignupThenLogin(s: Store, rawEmail: string, password: string, rawUsername: string, freshId: Id)
    requires Signup(s, rawEmail, password, rawUsername, freshId).Ok?
    ensures var s' := Signup(s, rawEmail, password, rawUsername, freshId).value;
      && Login(s', rawEmail, password) == Ok(s')
      && Login(s', NormalizeEmail(rawEmail), password) == Ok(s')
  {
    var s' := Signup(s, rawEmail, password, rawUsername, freshId).value;
    var email := NormalizeEmail(rawEmail);
    assert forall j :: 0 <= j < |s.users| ==> s'.users[j].email != email;
    IndexOfKeyAt(s'.users, Credentials, (email, password), |s.users|);
    NormalizeEmailIdempotent(rawEmail);
  }

  /** Signing up twice with one e-mail is refused the second time, so the
      e-mail is not registered twice. */
  lemma SignupTwiceRefused(s: Store, rawEmail: string, password: string, rawUsername: string, id1: Id,
                           rawEmail2: string, password2: string, rawUsername2: string, id2: Id)
    requires Signup(s, rawEmail, password, rawUsername, id1).Ok?
    requires NormalizeEmail(rawEmail2) == NormalizeEmail(rawEmail)
    ensures Signup(Signup(s, rawEmail, password, rawUsername, id1).value, rawEmail2, password2, rawUsername2, id2).Err?
  {
    var s' := Signup(s, rawEmail, password, rawUsername, id1).value;
    assert UserEmail(s'.users[|s.users|]) == NormalizeEmail(rawEmail);
  }
}
