/**
  Properties that relate several account handlers: registration against
  login, what a failed login reveals, the independence of login from the
  activation flag, and what repeating an operation does.
 */
module AuthLemmas {
  import opened Common
  import opened Text
  import opened AuthService

  /** Lookups by email agree on stores whose emails agree position by position. */
  lemma {:induction false} FindByEmailSameEmails(a: seq<User>, b: seq<User>, email: string)
    requires |a| == |b|
    requires forall k :: 0 <= k < |a| ==> a[k].email == b[k].email
    ensures FindByEmail(a, email) == FindByEmail(b, email)
  {
    if a != [] {
      FindByEmailSameEmails(a[1..], b[1..], email);
    }
  }

  /** Lookups by id agree on stores whose ids agree position by position. */
  lemma {:induction false} FindByIdSameIds(a: seq<User>, b: seq<User>, id: Id)
    requires |a| == |b|
    requires forall k :: 0 <= k < |a| ==> a[k].id == b[k].id
    ensures FindById(a, id) == FindById(b, id)
  {
    if a != [] {
      FindByIdSameIds(a[1..], b[1..], id);
    }
  }

  /** Once an email is registered, registering it again (with any name and
      password) is refused with 409. */
  lemma RegisterTwiceConflicts(s: UserStore, name: Option<string>, email: Option<string>, password: Option<string>,
                               otherName: Option<string>, otherPassword: Option<string>, hash: string -> string)
    requires Present(otherName) && Present(otherPassword)
    ensures var first := Register(s, name, email, password, hash);
      first.response.code == 201 ==>
        Register(first.store, otherName, email, otherPassword, hash).response.code == 409
  {
    var first := Register(s, name, email, password, hash);
    if first.response.code == 201 {
      assert first.store.users[|s.users|].email == email.value;
    }
  }

  /** The user a registration appends is the only one with its email. */
  lemma RegisteredIsOnlyHolder(s: UserStore, name: Option<string>, email: Option<string>, password: Option<string>,
                               hash: string -> string, u: User)
    requires StoreValid(s)
    requires Register(s, name, email, password, hash).response.code == 201
    requires u in Register(s, name, email, password, hash).store.users && u.email == email.value
    ensures u == Register(s, name, email, password, hash).store.users[|s.users|]
  {
    var users := Register(s, name, email, password, hash).store.users;
    var j :| 0 <= j < |users| && users[j] == u;
  }

  /** Logging in right after registering, with the same email and password,
      succeeds. The corrected login answers with the very session body the
      registration returned, token included; the login as written returns a
      token without the role, so its token differs from the registration's. */
  lemma RegisterThenLogin(s: UserStore, name: Option<string>, email: Option<string>, password: Option<string>,
                          hash: string -> string)
    requires StoreValid(s)
    ensures var r := Register(s, name, email, password, hash);
      r.response.code == 201 ==>
        && Login(r.store, email, password, hash) == Response(200, LoggedInMessage, r.response.body)
        && LoginAsWritten(r.store, email, password, hash).code == 200
        && LoginAsWritten(r.store, email, password, hash).body.token.role == None
        && LoginAsWritten(r.store, email, password, hash).body.token != r.response.body.token
  {
    var r := Register(s, name, email, password, hash);
    if r.response.code == 201 {
      var last := |s.users|;
      assert Credentials(r.store.users[last], email.value, password.value, hash);
      var login := Login(r.store, email, password, hash);
      assert login.code == 200;
      var u :| u in r.store.users && Credentials(u, email.value, password.value, hash)
        && login == LoginResponse(u, Claims(u.id, Some(u.role)));
      RegisteredIsOnlyHolder(s, name, email, password, hash, u);
      var written := LoginAsWritten(r.store, email, password, hash);
      var w :| w in r.store.users && Credentials(w, email.value, password.value, hash)
        && written == LoginResponse(w, Claims(w.id, None));
      RegisteredIsOnlyHolder(s, name, email, password, hash, w);
    }
  }

  /** A refused login with both fields given is always the same 401, so the
      response does not tell an unknown email from a wrong password; on a
      valid store it is refused exactly when no user accepts the
      credentials. */
  lemma FailedLoginIsUniform(s: UserStore, email: Option<string>, password: Option<string>, hash: string -> string)
    requires Present(email) && Present(password)
    ensures Login(s, email, password, hash).code != 200 ==>
      Login(s, email, password, hash) == Response(401, InvalidCredentialsMessage, NoBody)
    ensures StoreValid(s) ==>
      (Login(s, email, password, hash).code == 200 <==>
        exists k :: 0 <= k < |s.users| && Credentials(s.users[k], email.value, password.value, hash))
  {
  }

  /** Login does not consult the activation flag: after an account is
      activated or deactivated, every login answers as before. */
  lemma LoginIgnoresActivation(s: UserStore, requester: Id, active: bool,
                               email: Option<string>, password: Option<string>, hash: string -> string)
    ensures Login(SetActive(s, requester, active).store, email, password, hash) == Login(s, email, password, hash)
    ensures LoginAsWritten(SetActive(s, requester, active).store, email, password, hash)
      == LoginAsWritten(s, email, password, hash)
  {
    var t := SetActive(s, requester, active).store;
    if Present(email) && Present(password) {
      FindByEmailSameEmails(s.users, t.users, email.value);
      match FindByEmail(s.users, email.value)
      case None =>
      case Some(k) =>
        assert t.users[k] == s.users[k].(isActive := t.users[k].isActive);
    }
  }

  /** Setting the activation flag twice to the same value changes nothing
      more than setting it once. */
  lemma SetActiveIdempotent(s: UserStore, requester: Id, active: bool)
    ensures var once := SetActive(s, requester, active);
      SetActive(once.store, requester, active) == once
  {
    var once := SetActive(s, requester, active);
    FindByIdSameIds(s.users, once.store.users, requester);
    match FindById(s.users, requester)
    case None =>
    case Some(k) =>
      assert once.store.users[k].(isActive := active) == once.store.users[k];
      assert once.store.users[k := once.store.users[k]] == once.store.users;
  }

  /** Applying the same profile update twice changes nothing more than
      applying it once. */
  lemma UpdateProfileIdempotent(s: UserStore, requester: Id, p: ProfilePatch)
    ensures var once := UpdateProfile(s, requester, p);
      UpdateProfile(once.store, requester, p).store == once.store
  {
    var once := UpdateProfile(s, requester, p);
    FindByIdSameIds(s.users, once.store.users, requester);
    match FindById(s.users, requester)
    case None =>
    case Some(k) =>
      assert ApplyProfilePatch(once.store.users[k], p) == once.store.users[k];
      assert once.store.users[k := once.store.users[k]] == once.store.users;
  }

  /** On a valid store, deleting the same user twice: the second request
      finds nobody. */
  lemma DeleteUserTwiceNotFound(s: UserStore, id: Id)
    requires StoreValid(s)
    ensures DeleteUser(DeleteUser(s, id).store, id).response.code == 404
  {
    match FindById(s.users, id)
    case None =>
    case Some(i) =>
      var rest := DeleteUser(s, id).store.users;
      forall k | 0 <= k < |rest|
        ensures rest[k].id != id
      {
        assert rest[k] == s.users[if k < i then k else k + 1];
      }
  }

  /** A profile update keeps the store valid: it never empties a name and
      never touches an id or an email. */
  lemma UpdateProfileKeepsValid(s: UserStore, requester: Id, p: ProfilePatch)
    requires StoreValid(s)
    ensures StoreValid(UpdateProfile(s, requester, p).store)
  {
  }

  /** Changing the activation flag keeps the store valid. */
  lemma SetActiveKeepsValid(s: UserStore, requester: Id, active: bool)
    requires StoreValid(s)
    ensures StoreValid(SetActive(s, requester, active).store)
  {
  }

  /** Deleting a user keeps the store valid. */
  lemma DeleteUserKeepsValid(s: UserStore, id: Id)
    requires StoreValid(s)
    ensures StoreValid(DeleteUser(s, id).store)
  {
    match FindById(s.users, id)
    case None =>
    case Some(i) =>
      var rest := DeleteUser(s, id).store.users;
      forall a, b | 0 <= a < b < |rest|
        ensures rest[a].id != rest[b].id && rest[a].email != rest[b].email
      {
        assert rest[a] == s.users[if a < i then a else a + 1];
        assert rest[b] == s.users[if b < i then b else b + 1];
      }
  }
}
