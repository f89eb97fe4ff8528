/**
  The account request handlers: registration, login, profile read and
  update, the user directory, deletion, and account (de)activation, over a
  user store. Password hashing is a parameter `hash` (the comparison of a
  candidate password with the stored hash is `hash(candidate) == stored`),
  and a signed token is represented by the claims it carries.
 */
module AuthService {
  import opened Common
  import opened Text

  datatype Role = UserRole | AdminRole

  /** One entry of a user's address list; the inner shape of an address
      belongs to the User schema and is kept as opaque text. */
  datatype Address = Address(text: string)

  datatype User = User(
    id: Id,
    name: string,
    email: string,
    passwordHash: string,
    role: Role,
    contact: Option<string>,
    addresses: seq<Address>,
    isActive: bool)

  /** The user collection in natural order and the id the next registered
      user receives. */
  datatype UserStore = UserStore(users: seq<User>, nextId: Id)

  /** Ids are distinct and below `nextId`, emails are distinct, and names and
      emails are never empty. */
  predicate StoreValid(s: UserStore) {
    && (forall i :: 0 <= i < |s.users| ==>
          s.users[i].id < s.nextId && s.users[i].name != "" && s.users[i].email != "")
    && (forall i, j :: 0 <= i < j < |s.users| ==>
          s.users[i].id != s.users[j].id && s.users[i].email != s.users[j].email)
  }

  /** The payload of a signed token: the user id and, when the issuer passed
      one, the role. */
  datatype Claims = Claims(id: Id, role: Option<Role>)

  /** A user as `select("-password")` returns it: everything but the hash. */
  datatype PublicUser = PublicUser(
    id: Id,
    name: string,
    email: string,
    role: Role,
    contact: Option<string>,
    addresses: seq<Address>,
    isActive: bool)

  /** The user summary of a register or login response. */
  datatype SessionUser = SessionUser(id: Id, name: string, email: string, role: Role, contact: Option<string>)

  datatype Body =
    | NoBody
    | Session(token: Claims, account: SessionUser)
    | Profile(user: PublicUser)
    | Directory(count: nat, users: seq<PublicUser>)

  /** A response; `message` is empty for the responses that carry none. */
  datatype Response = Response(code: nat, message: string, body: Body)

  datatype Step = Step(response: Response, store: UserStore)

  /** The optional fields of a profile update. */
  datatype ProfilePatch = ProfilePatch(
    name: Option<string>,
    contact: Option<string>,
    addresses: Option<seq<Address>>)

  const NoMessage := ""
  const MissingRegistrationMessage := "Please provide all required fields"
  const DuplicateEmailMessage := "Email already registered"
  const RegisteredMessage := "User registered successfully"
  const MissingCredentialsMessage := "Please provide email and password"
  const InvalidCredentialsMessage := "Invalid email or password"
  const LoggedInMessage := "Login successful"
  const UserNotFoundMessage := "User not found"
  const ProfileUpdatedMessage := "Profile updated successfully"
  const UserDeletedMessage := "User deleted successfully"
  const DeactivatedMessage := "Account deactivated successfully"
  const ActivatedMessage := "Account activated successfully"

  function Public(u: User): PublicUser {
    PublicUser(u.id, u.name, u.email, u.role, u.contact, u.addresses, u.isActive)
  }

  function SessionOf(u: User): SessionUser {
    SessionUser(u.id, u.name, u.email, u.role, u.contact)
  }

  /** `findOne({ email })`: the position of the first user with that email. */
  function FindByEmail(users: seq<User>, email: string): (r: Option<nat>)
    ensures r.Some? ==> r.value < |users| && users[r.value].email == email
    ensures r.Some? ==> forall k :: 0 <= k < r.value ==> users[k].email != email
    ensures r.None? <==> forall k :: 0 <= k < |users| ==> users[k].email != email
  {
    if users == [] then None
    else if users[0].email == email then Some(0)
    else
      match FindByEmail(users[1..], email)
      case None => None
      case Some(i) => Some(i + 1)
  }

  /** `findById(id)`: the position of the first user with that id. */
  function FindById(users: seq<User>, id: Id): (r: Option<nat>)
    ensures r.Some? ==> r.value < |users| && users[r.value].id == id
    ensures r.Some? ==> forall k :: 0 <= k < r.value ==> users[k].id != id
    ensures r.None? <==> forall k :: 0 <= k < |users| ==> users[k].id != id
  {
    if users == [] then None
    else if users[0].id == id then Some(0)
    else
      match FindById(users[1..], id)
      case None => None
      case Some(i) => Some(i + 1)
  }

  /** The user a successful registration stores: default role `user`, no
      contact, no addresses, active, and the password only as its hash. */
  predicate RegisteredFrom(u: User, id: Id, name: string, email: string, password: string, hash: string -> string) {
    && u.id == id && u.name == name && u.email == email
    && u.passwordHash == hash(password)
    && u.role == UserRole && u.contact == None && u.addresses == [] && u.isActive
  }

  /** `register` (POST /auth/register). 400 when a field is missing or empty,
      409 when the email is taken (both leave the store unchanged); otherwise
      exactly one user is appended and the response carries a token whose
      claims are that user's id and role. */
  function Register(s: UserStore, name: Option<string>, email: Option<string>, password: Option<string>,
                    hash: string -> string): (r: Step)
    ensures r.response.code in {201, 400, 409}
    ensures r.response.code == 400 <==> !Present(name) || !Present(email) || !Present(password)
    ensures r.response.code == 409 <==>
      && Present(name) && Present(email) && Present(password)
      && exists k :: 0 <= k < |s.users| && s.users[k].email == email.value
    ensures r.response.code != 201 ==> r.store == s && r.response.body == NoBody
    ensures r.response.code == 201 ==>
      && r.store.nextId == s.nextId + 1
      && |r.store.users| == |s.users| + 1
      && r.store.users[..|s.users|] == s.users
      && var u := r.store.users[|s.users|];
         && RegisteredFrom(u, s.nextId, name.value, email.value, password.value, hash)
         && r.response.body == Session(Claims(u.id, Some(u.role)), SessionUser(u.id, u.name, u.email, u.role, None))
    ensures StoreValid(s) ==> StoreValid(r.store)
  {
    if !Present(name) || !Present(email) || !Present(password) then
      Step(Response(400, MissingRegistrationMessage, NoBody), s)
    else if FindByEmail(s.users, email.value).Some? then
      Step(Response(409, DuplicateEmailMessage, NoBody), s)
    else
      var u := User(s.nextId, name.value, email.value, hash(password.value), UserRole, None, [], true);
      var token := Claims(u.id, Some(u.role));
      Step(Response(201, RegisteredMessage, Session(token, SessionUser(u.id, u.name, u.email, u.role, None))),
           UserStore(s.users + [u], s.nextId + 1))
  }

  /** The stored user `u` accepts these credentials. */
  predicate Credentials(u: User, email: string, password: string, hash: string -> string) {
    u.email == email && hash(password) == u.passwordHash
  }

  /** The checks `login` makes before it issues a token: 400 when a field is
      missing, then one and the same 401 for an unknown email and for a
      wrong password. */
  function Authenticate(s: UserStore, email: Option<string>, password: Option<string>,
                        hash: string -> string): (r: Result<User, Response>)
    ensures r.Failure? ==> r.error.code in {400, 401} && r.error.body == NoBody
    ensures r.Failure? && r.error.code == 401 ==> r.error == Response(401, InvalidCredentialsMessage, NoBody)
    ensures (r.Failure? && r.error.code == 400) <==> !Present(email) || !Present(password)
    ensures r.Success? ==> r.value in s.users && Credentials(r.value, email.value, password.value, hash)
    ensures StoreValid(s) && Present(email) && Present(password) ==>
      (r.Success? <==> exists k :: 0 <= k < |s.users| && Credentials(s.users[k], email.value, password.value, hash))
  {
    if !Present(email) || !Present(password) then
      Failure(Response(400, MissingCredentialsMessage, NoBody))
    else
      match FindByEmail(s.users, email.value)
      case None => Failure(Response(401, InvalidCredentialsMessage, NoBody))
      case Some(k) =>
        if hash(password.value) != s.users[k].passwordHash then
          Failure(Response(401, InvalidCredentialsMessage, NoBody))
        else
          Success(s.users[k])
  }

  function LoginResponse(u: User, token: Claims): Response {
    Response(200, LoggedInMessage, Session(token, SessionOf(u)))
  }

  /** `login` as written: the token is signed with the user id only, so its
      claims carry no role. */
  function LoginAsWritten(s: UserStore, email: Option<string>, password: Option<string>,
                          hash: string -> string): (r: Response)
    ensures r.code in {200, 400, 401}
    ensures r.code == 200 ==> Present(email) && Present(password)
    ensures r.code == 200 ==>
      exists u :: u in s.users && Credentials(u, email.value, password.value, hash)
        && r == LoginResponse(u, Claims(u.id, None))
  {
    match Authenticate(s, email, password, hash)
    case Failure(response) => response
    case Success(u) => LoginResponse(u, Claims(u.id, None))
  }

  /** `login` with the token signed with the stored user's id and role, as
      `register` signs it. */
  function Login(s: UserStore, email: Option<string>, password: Option<string>,
                 hash: string -> string): (r: Response)
    ensures r.code in {200, 400, 401}
    ensures r.code == 200 ==> Present(email) && Present(password)
    ensures r.code == 200 ==>
      exists u :: u in s.users && Credentials(u, email.value, password.value, hash)
        && r == LoginResponse(u, Claims(u.id, Some(u.role)))
  {
    match Authenticate(s, email, password, hash)
    case Failure(response) => response
    case Success(u) => LoginResponse(u, Claims(u.id, Some(u.role)))
  }

  /** `getProfile` (GET /auth/profile): the requester's record without the
      password hash, or 404 when the requester no longer exists. */
  function GetProfile(s: UserStore, requester: Id): (r: Response)
    ensures r.code in {200, 404}
    ensures r.code == 404 <==> forall k :: 0 <= k < |s.users| ==> s.users[k].id != requester
    ensures r.code == 200 ==>
      exists u :: u in s.users && u.id == requester && r.body == Profile(Public(u))
  {
    match FindById(s.users, requester)
    case None => Response(404, UserNotFoundMessage, NoBody)
    case Some(k) => Response(200, NoMessage, Profile(Public(s.users[k])))
  }

  /** `after` is `before` with the truthy fields of the patch applied: a
      name or contact only when non-empty, an address list whenever present
      (an array, even an empty one, is truthy). */
  predicate ProfileUpdatedFrom(before: User, after: User, p: ProfilePatch) {
    && after.id == before.id && after.email == before.email
    && after.passwordHash == before.passwordHash
    && after.role == before.role && after.isActive == before.isActive
    && after.name == (if Present(p.name) then p.name.value else before.name)
    && after.contact == (if Present(p.contact) then p.contact else before.contact)
    && after.addresses == p.addresses.GetOr(before.addresses)
  }

  /** `findByIdAndUpdate` of a profile: the spread of the truthy fields. */
  function ApplyProfilePatch(u: User, p: ProfilePatch): User {
    u.(name := if Present(p.name) then p.name.value else u.name,
       contact := if Present(p.contact) then p.contact else u.contact,
       addresses := p.addresses.GetOr(u.addresses))
  }

  /** `updateProfile` (PUT /auth/profile). 404 with the store unchanged when
      the requester is absent; otherwise only the requester's record changes,
      and only in the truthy fields supplied. */
  function UpdateProfile(s: UserStore, requester: Id, p: ProfilePatch): (r: Step)
    ensures r.response.code in {200, 404}
    ensures r.response.code == 404 <==> forall k :: 0 <= k < |s.users| ==> s.users[k].id != requester
    ensures r.response.code == 404 ==> r.store == s
    ensures r.store.nextId == s.nextId && |r.store.users| == |s.users|
    ensures forall k :: 0 <= k < |s.users| && s.users[k].id != requester ==> r.store.users[k] == s.users[k]
    ensures r.response.code == 200 ==>
      exists k :: 0 <= k < |s.users| && s.users[k].id == requester
        && ProfileUpdatedFrom(s.users[k], r.store.users[k], p)
        && r.response.body == Profile(Public(r.store.users[k]))
  {
    match FindById(s.users, requester)
    case None => Step(Response(404, UserNotFoundMessage, NoBody), s)
    case Some(k) =>
      var u := ApplyProfilePatch(s.users[k], p);
      Step(Response(200, ProfileUpdatedMessage, Profile(Public(u))), s.(users := s.users[k := u]))
  }

  /** `getAllUsers`: every user, without password hashes, and their count. */
  function GetAllUsers(s: UserStore): (r: Response)
    ensures r.code == 200 && r.body.Directory?
    ensures r.body.count == |r.body.users| == |s.users|
    ensures forall k :: 0 <= k < |s.users| ==> r.body.users[k] == Public(s.users[k])
  {
    var users := seq(|s.users|, k requires 0 <= k < |s.users| => Public(s.users[k]));
    Response(200, NoMessage, Directory(|users|, users))
  }

  /** `deleteUser`: 404 with the store unchanged when no user has the id;
      otherwise that user is removed and the others stay, in order. */
  function DeleteUser(s: UserStore, id: Id): (r: Step)
    ensures r.response.code in {200, 404}
    ensures r.response.code == 404 <==> forall k :: 0 <= k < |s.users| ==> s.users[k].id != id
    ensures r.response.code == 404 ==> r.store == s
    ensures r.store.nextId == s.nextId
    ensures r.response.code == 200 ==>
      exists k :: 0 <= k < |s.users| && s.users[k].id == id && r.store.users == RemoveAt(s.users, k)
  {
    match FindById(s.users, id)
    case None => Step(Response(404, UserNotFoundMessage, NoBody), s)
    case Some(k) => Step(Response(200, UserDeletedMessage, NoBody), s.(users := RemoveAt(s.users, k)))
  }

  /** `findByIdAndUpdate(id, { isActive: active })`: 404 with the store
      unchanged when the requester is absent; otherwise only the requester's
      `isActive` flag changes, to `active`. */
  function SetActive(s: UserStore, requester: Id, active: bool): (r: Step)
    ensures r.response.code in {200, 404}
    ensures r.response.code == 404 <==> forall k :: 0 <= k < |s.users| ==> s.users[k].id != requester
    ensures r.response.code == 404 ==> r.store == s
    ensures r.store.nextId == s.nextId && |r.store.users| == |s.users|
    ensures forall k :: 0 <= k < |s.users| && s.users[k].id != requester ==> r.store.users[k] == s.users[k]
    ensures r.response.code == 200 ==>
      exists k :: 0 <= k < |s.users| && s.users[k].id == requester
        && r.store.users == s.users[k := s.users[k].(isActive := active)]
        && r.response.body == (if active then Profile(Public(r.store.users[k])) else NoBody)
  {
    match FindById(s.users, requester)
    case None => Step(Response(404, UserNotFoundMessage, NoBody), s)
    case Some(k) =>
      var u := s.users[k].(isActive := active);
      Step(Response(200, if active then ActivatedMessage else DeactivatedMessage,
                    if active then Profile(Public(u)) else NoBody),
           s.(users := s.users[k := u]))
  }

  /** `deactivateAccount`. */
  function Deactivate(s: UserStore, requester: Id): (r: Step)
    ensures r.response.code == 200 ==> r.response == Response(200, DeactivatedMessage, NoBody)
    ensures StoreValid(s) ==>
      forall k :: 0 <= k < |r.store.users| && r.store.users[k].id == requester ==> !r.store.users[k].isActive
  {
    SetActive(s, requester, false)
  }

  /** `activateAccount`. */
  function Activate(s: UserStore, requester: Id): (r: Step)
    ensures r.response.code == 200 ==> r.response.message == ActivatedMessage && r.response.body.Profile?
    ensures r.response.code == 200 ==>
      exists k :: 0 <= k < |r.store.users| && r.store.users[k].id == requester
        && r.response.body == Profile(Public(r.store.users[k])) && r.store.users[k].isActive
    ensures StoreValid(s) ==>
      forall k :: 0 <= k < |r.store.users| && r.store.users[k].id == requester ==> r.store.users[k].isActive
  {
    SetActive(s, requester, true)
  }
}
