// The users table and the two backend routers that work on it: registration,
// login, token refresh and logout (the auth router), and the current user's
// profile, password, account and statistics (the user router). The current
// user is the row a valid bearer token resolved to; hashing, password
// checking, token signing and credential lookup are parameters.

module Accounts {
  import opened Wrappers
  import Schemas
  import PdfRouter

  const ACCESS_TOKEN_EXPIRE_MINUTES: nat := 30
  const BEARER := "bearer"

  const ALREADY_REGISTERED := "Usuário ou email já cadastrado"
  const INVALID_CREDENTIALS := "Credenciais inválidas"
  const INACTIVE_USER := "Usuário inativo"
  const LOGGED_OUT := "Logout realizado com sucesso"
  const EMAIL_IN_USE := "Email já está em uso"
  const WRONG_PASSWORD := "Senha atual incorreta"
  const PASSWORD_CHANGED := "Senha alterada com sucesso"
  const ACCOUNT_DELETED := "Conta excluída com sucesso"
  const INTERNAL_ERROR := "Internal Server Error"

  /** A row of the users table. */
  datatype User = User(
    id: nat, username: string, email: string, fullName: Option<string>, bio: Option<string>,
    avatarUrl: Option<string>, hashedPassword: string, isActive: bool, isSuperuser: bool)

  /** `UserResponse`: every column the client may see, which excludes the hash. */
  datatype UserResponse = UserResponse(
    id: nat, username: string, email: string, fullName: Option<string>, bio: Option<string>,
    isActive: bool, isSuperuser: bool, avatarUrl: Option<string>)

  /**
   * An HTTP error; `challenge` is the `WWW-Authenticate: Bearer` header.
   * Request-body validation failures are answered with 422 and the
   * validator's message.
   */
  datatype ApiError = ApiError(code: nat, detail: string, challenge: bool)

  function ResponseOf(u: User): UserResponse
  {
    UserResponse(u.id, u.username, u.email, u.fullName, u.bio, u.isActive, u.isSuperuser, u.avatarUrl)
  }

  /** What the client sees of a user does not depend on the stored hash. */
  lemma ResponseIgnoresHash(u: User, h: string)
    ensures ResponseOf(u.(hashedPassword := h)) == ResponseOf(u)
  {
  }

  // ---------------------------------------------------------------- auth

  /** The `UserCreate` body of a registration. */
  datatype Registration = Registration(
    username: string, email: string, fullName: Option<string>, bio: Option<string>, password: string)

  /**
   * The `UserCreate` body once validated: the e-mail is checked before the
   * password, in the order the schema declares them, and an accepted e-mail
   * is replaced by the text of its normalised address.
   */
  function CheckRegistration(reg: Registration, check: string -> Schemas.EmailVerdict): (r: Result<Registration, string>)
    ensures r.Success? <==> check(reg.email).Valid? && |reg.password| >= Schemas.MIN_PASSWORD
    ensures check(reg.email).Invalid? ==> r == Failure(check(reg.email).reason)
    ensures check(reg.email).Valid? && r.Failure? ==> r.error == Schemas.PASSWORD_TOO_SHORT
    ensures r.Success? ==> r.value == reg.(email := Schemas.AddressText(check(reg.email))) && r.value.email != ""
  {
    var verdict := check(reg.email);
    if verdict.Invalid? then Failure(verdict.reason)
    else
      match Schemas.ValidatePassword(reg.password)
      case Failure(message) => Failure(message)
      case Success(_) => Success(reg.(email := Schemas.AddressText(verdict)))
  }

  /** Some row already has this username or this email. */
  predicate Taken(users: seq<User>, username: string, email: string)
  {
    exists k :: 0 <= k < |users| && (users[k].username == username || users[k].email == email)
  }

  /**
   * The row a registration inserts: username, email and full name from the
   * body and the hash of the password; the bio of the body is not stored,
   * and the other columns take their defaults (active, not a superuser).
   */
  function NewUser(id: nat, reg: Registration, hash: string -> string): (u: User)
    ensures u.id == id && u.username == reg.username && u.email == reg.email
    ensures u.hashedPassword == hash(reg.password) && u.isActive && !u.isSuperuser
  {
    User(id, reg.username, reg.email, reg.fullName, None, None, hash(reg.password), true, false)
  }

  /** After a registration its username and its email each belong to the new row alone. */
  lemma RegisteredIsUnique(users: seq<User>, reg: Registration, id: nat, hash: string -> string)
    requires !Taken(users, reg.username, reg.email)
    ensures forall k :: 0 <= k < |users| + 1 && (users + [NewUser(id, reg, hash)])[k].username == reg.username ==> k == |users|
    ensures forall k :: 0 <= k < |users| + 1 && (users + [NewUser(id, reg, hash)])[k].email == reg.email ==> k == |users|
  {
    var t := users + [NewUser(id, reg, hash)];
    forall k | 0 <= k < |users| ensures t[k].username != reg.username && t[k].email != reg.email {
      assert t[k] == users[k];
    }
  }

  /** Once registered, a username or an email cannot be registered again. */
  lemma RegisterAgainRefused(users: seq<User>, reg: Registration, id: nat, hash: string -> string, again: Registration)
    requires again.username == reg.username || again.email == reg.email
    ensures Taken(users + [NewUser(id, reg, hash)], again.username, again.email)
  {
    var t := users + [NewUser(id, reg, hash)];
    assert t[|users|] == NewUser(id, reg, hash);
  }

  /** The `user` part of a login response. */
  datatype TokenUser = TokenUser(id: nat, username: string, email: string, fullName: Option<string>)

  /** The `Token` response. */
  datatype Token = Token(accessToken: string, tokenType: string, expiresIn: nat, user: Option<TokenUser>)

  /**
   * `POST /login`, given what credential lookup found for the form's
   * username and password (`authenticated`) and the token signer, which
   * takes the subject and the lifetime in minutes.
   */
  function Login(authenticated: Option<User>, sign: (string, nat) -> string): (r: Result<Token, ApiError>)
    ensures authenticated.None? <==> r == Failure(ApiError(401, INVALID_CREDENTIALS, true))
    ensures authenticated.Some? && !authenticated.value.isActive <==> r == Failure(ApiError(400, INACTIVE_USER, false))
    ensures r.Success? <==> authenticated.Some? && authenticated.value.isActive
    ensures r.Success? ==>
      var u := authenticated.value;
      r.value.accessToken == sign(u.username, ACCESS_TOKEN_EXPIRE_MINUTES) && r.value.tokenType == BEARER
      && r.value.expiresIn == 1800 && r.value.user == Some(TokenUser(u.id, u.username, u.email, u.fullName))
  {
    match authenticated
    case None => Failure(ApiError(401, INVALID_CREDENTIALS, true))
    case Some(u) =>
      if !u.isActive then Failure(ApiError(400, INACTIVE_USER, false))
      else Success(Token(sign(u.username, ACCESS_TOKEN_EXPIRE_MINUTES), BEARER,
                         ACCESS_TOKEN_EXPIRE_MINUTES * 60, Some(TokenUser(u.id, u.username, u.email, u.fullName))))
  }

  /** `POST /refresh` for the current user: a new token, without the user part. */
  function Refresh(current: User, sign: (string, nat) -> string): (t: Token)
    ensures t.user.None? && t.tokenType == BEARER && t.expiresIn == 1800
  {
    Token(sign(current.username, ACCESS_TOKEN_EXPIRE_MINUTES), BEARER, ACCESS_TOKEN_EXPIRE_MINUTES * 60, None)
  }

  /** Refreshing gives an active user the token login gives, less the user part. */
  lemma RefreshMatchesLogin(u: User, sign: (string, nat) -> string)
    requires u.isActive
    ensures Login(Some(u), sign).Success?
    ensures Refresh(u, sign) == Login(Some(u), sign).value.(user := None)
  {
  }

  // ---------------------------------------------------------------- user

  /** The `UserUpdate` body: absent fields are `None`; the last three may be set to null. */
  datatype UserUpdate = UserUpdate(
    email: Option<string>, fullName: Option<Option<string>>, bio: Option<Option<string>>,
    avatarUrl: Option<Option<string>>)

  /** One item of `user_update.dict(exclude_unset=True)`. */
  datatype FieldValue = Email(email: string) | FullName(fullName: Option<string>) | Bio(bio: Option<string>) | AvatarUrl(avatarUrl: Option<string>)

  function EmailItem(upd: UserUpdate): seq<FieldValue>
  {
    if upd.email.Some? then [Email(upd.email.value)] else []
  }

  function FullNameItem(upd: UserUpdate): seq<FieldValue>
  {
    if upd.fullName.Some? then [FullName(upd.fullName.value)] else []
  }

  function BioItem(upd: UserUpdate): seq<FieldValue>
  {
    if upd.bio.Some? then [Bio(upd.bio.value)] else []
  }

  function AvatarUrlItem(upd: UserUpdate): seq<FieldValue>
  {
    if upd.avatarUrl.Some? then [AvatarUrl(upd.avatarUrl.value)] else []
  }

  /**
   * The `UserUpdate` body once validated: an e-mail it sets must be an
   * address, and is replaced by its normalised text; the other fields are
   * not checked.
   */
  function CheckUpdate(upd: UserUpdate, check: string -> Schemas.EmailVerdict): (r: Result<UserUpdate, string>)
    ensures r.Failure? <==> upd.email.Some? && check(upd.email.value).Invalid?
    ensures r.Failure? ==> r.error == check(upd.email.value).reason
    ensures r.Success? ==>
      && r.value.fullName == upd.fullName && r.value.bio == upd.bio && r.value.avatarUrl == upd.avatarUrl
      && (r.value.email.Some? <==> upd.email.Some?)
      && (upd.email.Some? ==> r.value.email == Some(Schemas.AddressText(check(upd.email.value))) && r.value.email != Some(""))
  {
    if upd.email.None? then Success(upd)
    else
      var verdict := check(upd.email.value);
      if verdict.Invalid? then Failure(verdict.reason)
      else Success(upd.(email := Some(Schemas.AddressText(verdict))))
  }

  /** The fields the request set, in the schema's order. */
  function SetItems(upd: UserUpdate): seq<FieldValue>
  {
    EmailItem(upd) + (FullNameItem(upd) + (BioItem(upd) + AvatarUrlItem(upd)))
  }

  /** `setattr(user, field, value)`. */
  function SetField(u: User, f: FieldValue): User
  {
    match f
    case Email(e) => u.(email := e)
    case FullName(n) => u.(fullName := n)
    case Bio(b) => u.(bio := b)
    case AvatarUrl(a) => u.(avatarUrl := a)
  }

  /** The items applied in order. */
  function ApplyAll(u: User, items: seq<FieldValue>): User
    decreases |items|
  {
    if items == [] then u else ApplyAll(SetField(u, items[0]), items[1..])
  }

  /**
   * The user after an update, field by field: a field the request set takes
   * the request's value, every other column keeps its own.
   */
  function Updated(u: User, upd: UserUpdate): (r: User)
    ensures r.id == u.id && r.username == u.username && r.hashedPassword == u.hashedPassword
    ensures r.isActive == u.isActive && r.isSuperuser == u.isSuperuser
  {
    u.(email := upd.email.GetOr(u.email), fullName := upd.fullName.GetOr(u.fullName),
       bio := upd.bio.GetOr(u.bio), avatarUrl := upd.avatarUrl.GetOr(u.avatarUrl))
  }

  /** The setattr loop itself: each item in turn. */
  method SetAll(u0: User, items: seq<FieldValue>) returns (u: User)
    ensures u == ApplyAll(u0, items)
  {
    u := u0;
    for i := 0 to |items|
      invariant ApplyAll(u, items[i..]) == ApplyAll(u0, items)
    {
      assert items[i..][1..] == items[i + 1..];
      u := SetField(u, items[i]);
    }
  }

  /** Applying at most one item and then the rest. */
  lemma ApplyFront(u: User, e: seq<FieldValue>, rest: seq<FieldValue>)
    requires |e| <= 1
    ensures ApplyAll(u, e + rest) == ApplyAll(if e == [] then u else SetField(u, e[0]), rest)
  {
    if e == [] {
      assert e + rest == rest;
    } else {
      assert (e + rest)[1..] == rest;
    }
  }

  /** The setattr loop over the set items gives the field-by-field update. */
  lemma ApplySetItems(u: User, upd: UserUpdate)
    ensures ApplyAll(u, SetItems(upd)) == Updated(u, upd)
  {
    var a := AvatarUrlItem(upd);
    var u1 := u.(email := upd.email.GetOr(u.email));
    var u2 := u1.(fullName := upd.fullName.GetOr(u.fullName));
    var u3 := u2.(bio := upd.bio.GetOr(u.bio));
    ApplyFront(u, EmailItem(upd), FullNameItem(upd) + (BioItem(upd) + a));
    ApplyFront(u1, FullNameItem(upd), BioItem(upd) + a);
    ApplyFront(u2, BioItem(upd), a);
    ApplyFront(u3, a, []);
    assert a + [] == a;
  }

  /** A field the request leaves out keeps its value; a field it sets takes the request's. */
  lemma UpdatedFields(u: User, upd: UserUpdate)
    ensures Updated(u, upd).email == if upd.email.Some? then upd.email.value else u.email
    ensures Updated(u, upd).fullName == if upd.fullName.Some? then upd.fullName.value else u.fullName
    ensures Updated(u, upd).bio == if upd.bio.Some? then upd.bio.value else u.bio
    ensures Updated(u, upd).avatarUrl == if upd.avatarUrl.Some? then upd.avatarUrl.value else u.avatarUrl
  {
  }

  /** Sending the same update twice changes nothing the second time. */
  lemma UpdatedIdempotent(u: User, upd: UserUpdate)
    ensures Updated(Updated(u, upd), upd) == Updated(u, upd)
  {
  }

  /** An empty body changes nothing. */
  lemma UpdatedEmpty(u: User)
    ensures Updated(u, UserUpdate(None, None, None, None)) == u
  {
  }

  /**
   * The request sets a non-empty email other than the current user's own,
   * and another user (by id) already has it.
   */
  predicate EmailConflict(users: seq<User>, me: nat, upd: UserUpdate)
    requires me < |users|
  {
    upd.email.Some? && upd.email.value != "" && upd.email.value != users[me].email
    && exists k :: 0 <= k < |users| && users[k].email == upd.email.value && users[k].id != users[me].id
  }

  /** Keeping one's own email never conflicts, whoever else holds it. */
  lemma OwnEmailNoConflict(users: seq<User>, me: nat, upd: UserUpdate)
    requires me < |users| && upd.email == Some(users[me].email)
    ensures !EmailConflict(users, me, upd)
  {
  }

  predicate DistinctIds(users: seq<User>)
  {
    forall j, k :: 0 <= j < k < |users| ==> users[j].id != users[k].id
  }

  predicate DistinctEmails(users: seq<User>)
  {
    forall j, k :: 0 <= j < k < |users| ==> users[j].email != users[k].email
  }

  /** An update that passes validation and the conflict check keeps emails distinct. */
  lemma UpdateKeepsEmailsDistinct(users: seq<User>, me: nat, body: UserUpdate, check: string -> Schemas.EmailVerdict)
    requires me < |users| && DistinctIds(users) && DistinctEmails(users)
    requires CheckUpdate(body, check).Success? && !EmailConflict(users, me, CheckUpdate(body, check).value)
    ensures DistinctEmails(users[me := Updated(users[me], CheckUpdate(body, check).value)])
  {
    var upd := CheckUpdate(body, check).value;
    var t := users[me := Updated(users[me], upd)];
    forall j, k | 0 <= j < k < |t| ensures t[j].email != t[k].email {
      if j == me || k == me {
        var o := if j == me then k else j;
        assert t[o] == users[o];
        if upd.email.Some? && upd.email.value != users[me].email {
          assert users[o].id != users[me].id;
        }
      }
    }
  }

  // ---------------------------------------------------------------- stats

  /** The projects of `ps[..n]` that `userId` owns, in order. */
  function OwnedProjects(ps: seq<PdfRouter.Project>, userId: nat, n: nat): seq<PdfRouter.Project>
    requires n <= |ps|
  {
    if n == 0 then []
    else OwnedProjects(ps, userId, n - 1) + (if ps[n - 1].ownerId == userId then [ps[n - 1]] else [])
  }

  /** The operations of `ops[..n]` that `userId` ran, in order. */
  function OwnOperations(ops: seq<PdfRouter.Operation>, userId: nat, n: nat): seq<PdfRouter.Operation>
    requires n <= |ops|
  {
    if n == 0 then []
    else OwnOperations(ops, userId, n - 1) + (if ops[n - 1].userId == userId then [ops[n - 1]] else [])
  }

  /** How many of the user's operations in `ops[..n]` have this type. */
  function CountOfType(ops: seq<PdfRouter.Operation>, userId: nat, t: string, n: nat): nat
    requires n <= |ops|
  {
    if n == 0 then 0
    else CountOfType(ops, userId, t, n - 1) + (if ops[n - 1].userId == userId && ops[n - 1].operationType == t then 1 else 0)
  }

  /** `dict(... group_by(operation_type))` over `ops[..n]`. */
  function CountsByType(ops: seq<PdfRouter.Operation>, userId: nat, n: nat): map<string, nat>
    requires n <= |ops|
  {
    if n == 0 then map[]
    else
      var m := CountsByType(ops, userId, n - 1);
      var op := ops[n - 1];
      if op.userId == userId then m[op.operationType := (if op.operationType in m then m[op.operationType] else 0) + 1]
      else m
  }

  /** The projects counted are exactly the user's own. */
  lemma {:induction false} OwnedProjectsExactly(ps: seq<PdfRouter.Project>, userId: nat, n: nat)
    requires n <= |ps|
    ensures forall p :: p in OwnedProjects(ps, userId, n) <==> p.ownerId == userId && exists k :: 0 <= k < n && ps[k] == p
  {
    if n > 0 {
      OwnedProjectsExactly(ps, userId, n - 1);
    }
  }

  /** The operations counted are exactly the user's own. */
  lemma {:induction false} OwnOperationsExactly(ops: seq<PdfRouter.Operation>, userId: nat, n: nat)
    requires n <= |ops|
    ensures forall op :: op in OwnOperations(ops, userId, n) <==> op.userId == userId && exists k :: 0 <= k < n && ops[k] == op
  {
    if n > 0 {
      OwnOperationsExactly(ops, userId, n - 1);
    }
  }

  /**
   * The grouping has a key for each type among the user's operations and no
   * other, holding how many of them have that type, which is at most their number.
   */
  lemma {:induction false} CountsByTypeExactly(ops: seq<PdfRouter.Operation>, userId: nat, n: nat)
    requires n <= |ops|
    ensures forall t :: t in CountsByType(ops, userId, n) <==> CountOfType(ops, userId, t, n) > 0
    ensures forall t :: t in CountsByType(ops, userId, n) ==> CountsByType(ops, userId, n)[t] == CountOfType(ops, userId, t, n)
    ensures forall t :: CountOfType(ops, userId, t, n) <= |OwnOperations(ops, userId, n)|
  {
    if n > 0 {
      CountsByTypeExactly(ops, userId, n - 1);
    }
  }

  /** A type has a positive count exactly when one of the user's operations has it. */
  lemma {:induction false} CountOfTypePositive(ops: seq<PdfRouter.Operation>, userId: nat, t: string, n: nat)
    requires n <= |ops|
    ensures CountOfType(ops, userId, t, n) > 0 <==> exists k :: 0 <= k < n && ops[k].userId == userId && ops[k].operationType == t
  {
    if n > 0 {
      CountOfTypePositive(ops, userId, t, n - 1);
    }
  }

  /** The keys of the whole grouping are the types of the user's operations, each counted at least once. */
  lemma GroupedTypes(ops: seq<PdfRouter.Operation>, userId: nat)
    ensures forall t :: t in CountsByType(ops, userId, |ops|) <==> exists k :: 0 <= k < |ops| && ops[k].userId == userId && ops[k].operationType == t
    ensures forall t :: t in CountsByType(ops, userId, |ops|) ==> 1 <= CountsByType(ops, userId, |ops|)[t] <= |OwnOperations(ops, userId, |ops|)|
  {
    CountsByTypeExactly(ops, userId, |ops|);
    forall t ensures CountOfType(ops, userId, t, |ops|) > 0 <==> exists k :: 0 <= k < |ops| && ops[k].userId == userId && ops[k].operationType == t {
      CountOfTypePositive(ops, userId, t, |ops|);
    }
  }

  /** The `GET /stats` answer, without `member_since`. */
  datatype UserStats = UserStats(totalProjects: nat, totalOperations: nat, operationsByType: map<string, nat>)

  /** `GET /stats` as evidently intended, with the count function taken from SQLAlchemy. */
  function Stats(ps: seq<PdfRouter.Project>, ops: seq<PdfRouter.Operation>, userId: nat): (r: Result<UserStats, ApiError>)
    ensures r.Success?
    ensures r.value.totalProjects == |OwnedProjects(ps, userId, |ps|)|
    ensures r.value.totalOperations == |OwnOperations(ops, userId, |ops|)|
    ensures forall t :: t in r.value.operationsByType <==> exists k :: 0 <= k < |ops| && ops[k].userId == userId && ops[k].operationType == t
    ensures forall t :: t in r.value.operationsByType ==> 1 <= r.value.operationsByType[t] <= r.value.totalOperations
    ensures forall t :: t in r.value.operationsByType ==> r.value.operationsByType[t] == CountOfType(ops, userId, t, |ops|)
  {
    GroupedTypes(ops, userId);
    CountsByTypeExactly(ops, userId, |ops|);
    Success(UserStats(|OwnedProjects(ps, userId, |ps|)|, |OwnOperations(ops, userId, |ops|)|, CountsByType(ops, userId, |ops|)))
  }

  /**
   * `GET /stats` as written: the grouping query asks the session for
   * `func`, which a SQLAlchemy session does not have, so every request
   * ends in an unhandled error before an answer is built.
   */
  function StatsAsWritten(ps: seq<PdfRouter.Project>, ops: seq<PdfRouter.Operation>, userId: nat): Result<UserStats, ApiError>
  {
    Failure(ApiError(500, INTERNAL_ERROR, false))
  }

  /** The written endpoint never answers, even where the intended one always does. */
  lemma StatsAsWrittenFails(ps: seq<PdfRouter.Project>, ops: seq<PdfRouter.Operation>, userId: nat)
    ensures StatsAsWritten(ps, ops, userId).Failure? && Stats(ps, ops, userId).Success?
    ensures StatsAsWritten(ps, ops, userId) != Stats(ps, ops, userId)
  {
  }

  // ---------------------------------------------------------------- table

  /** The users table; `nextId` is the next id the database hands out. */
  class UserTable {
    var users: seq<User>
    var nextId: nat

    ghost predicate Valid()
      reads this
    {
      DistinctIds(users) && forall k :: 0 <= k < |users| ==> users[k].id < nextId
    }

    constructor ()
      ensures Valid() && users == [] && nextId == 1
    {
      users := [];
      nextId := 1;
    }

    /**
     * `POST /register`: a body whose e-mail is not an address, or whose
     * password is shorter than eight characters, is refused with 422 by the
     * body's validators; a username or normalised e-mail already present is
     * refused with 400; otherwise the new row is added with the next id.
     */
    method Register(body: Registration, hash: string -> string, check: string -> Schemas.EmailVerdict)
      returns (r: Result<UserResponse, ApiError>)
      requires Valid()
      modifies this
      ensures Valid()
      ensures CheckRegistration(body, check).Failure? ==>
        r == Failure(ApiError(422, CheckRegistration(body, check).error, false)) && users == old(users) && nextId == old(nextId)
      ensures CheckRegistration(body, check).Success? ==>
        var reg := CheckRegistration(body, check).value;
        && (Taken(old(users), reg.username, reg.email) ==>
              r == Failure(ApiError(400, ALREADY_REGISTERED, false)) && users == old(users) && nextId == old(nextId))
        && (!Taken(old(users), reg.username, reg.email) ==>
              users == old(users) + [NewUser(old(nextId), reg, hash)] && nextId == old(nextId) + 1
              && r == Success(ResponseOf(NewUser(old(nextId), reg, hash))))
    {
      var checked := CheckRegistration(body, check);
      if checked.Failure? {
        return Failure(ApiError(422, checked.error, false));
      }
      var reg := checked.value;
      if exists k :: 0 <= k < |users| && (users[k].username == reg.username || users[k].email == reg.email) {
        return Failure(ApiError(400, ALREADY_REGISTERED, false));
      }
      var u := NewUser(nextId, reg, hash);
      users := users + [u];
      nextId := nextId + 1;
      r := Success(ResponseOf(u));
    }

    /**
     * `PUT /me` for the user at `me`: an e-mail that is not an address is
     * refused with 422 by the body's validator; a conflicting e-mail is
     * refused with 400; either way nothing changes. Otherwise every field the
     * request set is written, the e-mail in its normalised form.
     */
    method UpdateCurrentUser(me: nat, body: UserUpdate, check: string -> Schemas.EmailVerdict)
      returns (r: Result<UserResponse, ApiError>)
      requires Valid() && me < |users|
      modifies this`users
      ensures Valid()
      ensures CheckUpdate(body, check).Failure? ==>
        r == Failure(ApiError(422, CheckUpdate(body, check).error, false)) && users == old(users)
      ensures CheckUpdate(body, check).Success? ==>
        var upd := CheckUpdate(body, check).value;
        && (EmailConflict(old(users), me, upd) ==> r == Failure(ApiError(400, EMAIL_IN_USE, false)) && users == old(users))
        && (!EmailConflict(old(users), me, upd) ==>
              users == old(users)[me := Updated(old(users)[me], upd)] && r == Success(ResponseOf(users[me])))
    {
      var checked := CheckUpdate(body, check);
      if checked.Failure? {
        return Failure(ApiError(422, checked.error, false));
      }
      var upd := checked.value;
      if upd.email.Some? && upd.email.value != "" && upd.email.value != users[me].email {
        var e := upd.email.value;
        if exists k :: 0 <= k < |users| && users[k].email == e && users[k].id != users[me].id {
          return Failure(ApiError(400, EMAIL_IN_USE, false));
        }
      }
      var u := SetAll(users[me], SetItems(upd));
      ApplySetItems(users[me], upd);
      users := users[me := u];
      r := Success(ResponseOf(u));
    }

    /**
     * `POST /me/change-password`: a new password shorter than eight
     * characters is refused by the body's validator; a current password that
     * does not match the stored hash is refused with 400 and the hash is kept;
     * otherwise the hash of the new password replaces it.
     */
    method ChangePassword(me: nat, current: string, newPassword: string, verify: (string, string) -> bool, hash: string -> string)
      returns (r: Result<string, ApiError>)
      requires Valid() && me < |users|
      modifies this`users
      ensures Valid()
      ensures Schemas.ValidateNewPassword(newPassword).Failure? ==>
        r == Failure(ApiError(422, Schemas.NEW_PASSWORD_TOO_SHORT, false)) && users == old(users)
      ensures Schemas.ValidateNewPassword(newPassword).Success? && !verify(current, old(users)[me].hashedPassword) ==>
        r == Failure(ApiError(400, WRONG_PASSWORD, false)) && users == old(users)
      ensures Schemas.ValidateNewPassword(newPassword).Success? && verify(current, old(users)[me].hashedPassword) ==>
        r == Success(PASSWORD_CHANGED) && users == old(users)[me := old(users)[me].(hashedPassword := hash(newPassword))]
    {
      var checked := Schemas.ValidateNewPassword(newPassword);
      if checked.Failure? {
        return Failure(ApiError(422, checked.error, false));
      }
      if !verify(current, users[me].hashedPassword) {
        return Failure(ApiError(400, WRONG_PASSWORD, false));
      }
      users := users[me := users[me].(hashedPassword := hash(newPassword))];
      r := Success(PASSWORD_CHANGED);
    }

    /** `DELETE /me`: the row goes and every other row stays, in order. */
    method DeleteCurrentUser(me: nat) returns (message: string)
      requires Valid() && me < |users|
      modifies this`users
      ensures Valid()
      ensures users == Without(old(users), me) && message == ACCOUNT_DELETED
    {
      DeletedIsGone(users, me);
      users := Without(users, me);
      message := ACCOUNT_DELETED;
    }
  }

  /** The table without the row at `me`. */
  function Without(users: seq<User>, me: nat): (r: seq<User>)
    requires me < |users|
    ensures |r| == |users| - 1
  {
    users[..me] + users[me + 1..]
  }

  /** After a deletion no row has the deleted id, and the other rows remain in order. */
  lemma DeletedIsGone(users: seq<User>, me: nat)
    requires DistinctIds(users) && me < |users|
    ensures forall k :: 0 <= k < |users| - 1 ==> Without(users, me)[k].id != users[me].id
    ensures forall k :: 0 <= k < me ==> Without(users, me)[k] == users[k]
    ensures forall k :: me < k < |users| ==> Without(users, me)[k - 1] == users[k]
  {
    var t := Without(users, me);
    forall k | 0 <= k < |users| - 1 ensures t[k].id != users[me].id {
      if k < me { assert t[k] == users[k]; } else { assert t[k] == users[k + 1]; }
    }
  }
}
