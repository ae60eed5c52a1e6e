/** Accounts: registration, password login, logout and the current-user lookup
    of server/controllers/authController.js, and the Google sign-in callback of
    server/config/passport.js. A password hash is a symbolic bcrypt digest that
    matches exactly the password it was made from; a JSON Web Token is the
    claims it carries. The users collection is a sequence owned by `UserStore`. */
module Accounts {
  import opened Js
  import opened Http
  import opened Query

  datatype PasswordHash = BcryptHash(of: string)

  /** `bcrypt.compare(password, hash)`. */
  predicate PasswordMatches(password: string, hash: PasswordHash) {
    hash.of == password
  }

  datatype User = User(id: nat, name: string, email: string, password: Option<PasswordHash>,
                       role: string, googleId: Option<string>)

  /** The user fields a response may carry; the password hash is not among them. */
  datatype PublicUser = PublicUser(id: nat, name: string, email: string, role: string)

  /** The claims of the token `generateToken` signs, and its lifetime in days. */
  datatype Token = Token(userId: nat, role: string, lifetimeDays: nat)

  /** The `token` cookie as set by `res.cookie`; an absent value is the empty string logout writes. */
  datatype Cookie = Cookie(name: string, value: Option<Token>, httpOnly: bool, secure: bool,
                           sameSite: string, maxAgeMs: nat)

  /** What `sendToken` answers: status, public user, token in the body, and the cookie. */
  datatype Session = Session(status: nat, user: PublicUser, token: Token, cookie: Cookie)

  const MsPerDay: nat := 24 * 60 * 60 * 1000
  const TokenLifetimeDays: nat := 7

  const AllFieldsRequired := ApiError(400, "All fields are required", false)
  const InvalidRole := ApiError(400, "Invalid role", false)
  const EmailRegistered := ApiError(400, "Email already registered", false)
  const InvalidCredentials := ApiError(401, "Invalid credentials", false)
  const UseGoogle := ApiError(400, "Please login with Google", false)
  const LoginFailed := ApiError(500, "Login failed", false)
  const UserNotFound := ApiError(401, "User not found", false)

  function WrongRole(role: string): ApiError {
    ApiError(401, "Please login as " + role, false)
  }

  predicate IsRole(role: string) {
    role == "teacher" || role == "student"
  }

  // ------------------------------------------------------------------ lookups

  /** `User.findOne({ email })`. */
  function FindByEmail(users: seq<User>, email: string): Option<nat> {
    FindFirst(users, (u: User) => u.email == email)
  }

  /** `User.findOne({ googleId })`. */
  function FindByGoogleId(users: seq<User>, googleId: string): Option<nat> {
    FindFirst(users, (u: User) => u.googleId == Some(googleId))
  }

  /** `User.findById(id)`. */
  function FindById(users: seq<User>, id: nat): Option<nat> {
    FindFirst(users, (u: User) => u.id == id)
  }

  // ----------------------------------------------------------------- sessions

  /** The options every `res.cookie('token', …)` call passes: HTTP-only, secure
      and cross-site (`SameSite=None`) in production, `Lax` otherwise. */
  function TokenCookie(value: Option<Token>, maxAgeMs: nat, production: bool): (c: Cookie)
    ensures c.name == "token" && c.value == value && c.maxAgeMs == maxAgeMs && c.httpOnly
    ensures c.secure <==> production
    ensures c.sameSite == "none" <==> production
    ensures c.sameSite == "none" || c.sameSite == "lax"
  {
    Cookie("token", value, true, production, if production then "none" else "lax", maxAgeMs)
  }

  /** `generateToken`: the user's id and role, valid for seven days. */
  function GenerateToken(u: User): Token {
    Token(u.id, u.role, TokenLifetimeDays)
  }

  function PublicView(u: User): PublicUser {
    PublicUser(u.id, u.name, u.email, u.role)
  }

  /** `sendToken`: the token goes both in the body and in a cookie whose
      lifetime, `7 * 24 * 60 * 60 * 1000` ms, is the token's own. */
  function SendToken(u: User, status: nat, production: bool): (s: Session)
    ensures s.status == status
    ensures s.user.id == u.id && s.user.email == u.email && s.user.role == u.role && s.user.name == u.name
    ensures s.token.userId == u.id && s.token.role == u.role
    ensures s.cookie.value == Some(s.token)
    ensures s.cookie.maxAgeMs == s.token.lifetimeDays * MsPerDay == 604800000
    ensures s.cookie == TokenCookie(Some(s.token), 604800000, production)
  {
    var t := GenerateToken(u);
    Session(status, PublicView(u), t, TokenCookie(Some(t), 7 * 24 * 60 * 60 * 1000, production))
  }

  /** `logout`: overwrites the session cookie (same name and flags as the one
      `sendToken` sets) with an empty value that expires at once. */
  function Logout(production: bool): (r: (Cookie, string))
    ensures r.0.value.None? && r.0.maxAgeMs == 0
    ensures forall u: User, status: nat ::
      var issued := SendToken(u, status, production).cookie;
      r.0.name == issued.name && r.0.httpOnly == issued.httpOnly
      && r.0.secure == issued.secure && r.0.sameSite == issued.sameSite
    ensures r.1 == "Logged out successfully"
  {
    (TokenCookie(None, 0, production), "Logged out successfully")
  }

  /** `getMe`: the caller's public fields, or 401 when the id names no user. */
  function GetMe(users: seq<User>, userId: nat): (r: Result<PublicUser>)
    ensures r == Err(UserNotFound) <==> forall j :: 0 <= j < |users| ==> users[j].id != userId
    ensures r.Err? ==> r == Err(UserNotFound)
    ensures r.Ok? ==> exists u :: u in users && u.id == userId && r.value == PublicView(u)
  {
    match FindById(users, userId)
    case None => Err(UserNotFound)
    case Some(k) =>
      assert users[k] in users;
      Ok(PublicView(users[k]))
  }

  // --------------------------------------------------------------------- login

  /** `login`, guard by guard. The refusals in order: an unknown email (401), a
      Google-only account (400), a role other than the account's when one is
      given (401), a missing password on either side, which makes
      `bcrypt.compare` throw (500), and a wrong password (401). */
  function Login(users: seq<User>, email: string, password: Option<string>, role: Option<string>, production: bool)
    : (r: Result<Session>)
    ensures FindByEmail(users, email).None? ==> r == Err(InvalidCredentials)
    ensures FindByEmail(users, email).Some? ==>
      var u := users[FindByEmail(users, email).value];
      if Truthy(u.googleId) && u.password.None? then r == Err(UseGoogle)
      else if Truthy(role) && u.role != role.value then r == Err(WrongRole(u.role))
      else if password.None? || u.password.None? then r == Err(LoginFailed)
      else if !PasswordMatches(password.value, u.password.value) then r == Err(InvalidCredentials)
      else r == Ok(SendToken(u, 200, production))
    ensures r.Ok? <==>
      && FindByEmail(users, email).Some?
      && var u := users[FindByEmail(users, email).value];
      && password.Some? && u.password == Some(BcryptHash(password.value))
      && (!Truthy(role) || u.role == role.value)
  {
    match FindByEmail(users, email)
    case None => Err(InvalidCredentials)
    case Some(k) =>
      var u := users[k];
      if Truthy(u.googleId) && u.password.None? then Err(UseGoogle)
      else if Truthy(role) && u.role != role.value then Err(WrongRole(u.role))
      else if password.None? || u.password.None? then Err(LoginFailed)
      else if !PasswordMatches(password.value, u.password.value) then Err(InvalidCredentials)
      else Ok(SendToken(u, 200, production))
  }

  // ------------------------------------------------------------------ register

  /** The three guards of `register`, in order: every field present and
      non-empty, a known role, an email nobody has registered. */
  function RegisterGuard(users: seq<User>, name: Option<string>, email: Option<string>,
                         password: Option<string>, role: Option<string>): (r: Option<ApiError>)
    ensures !(Truthy(name) && Truthy(email) && Truthy(password) && Truthy(role)) ==> r == Some(AllFieldsRequired)
    ensures Truthy(name) && Truthy(email) && Truthy(password) && Truthy(role) && !IsRole(role.value) ==>
      r == Some(InvalidRole)
    ensures Truthy(name) && Truthy(email) && Truthy(password) && Truthy(role) && IsRole(role.value) ==>
      (r == Some(EmailRegistered) <==> exists j :: 0 <= j < |users| && users[j].email == email.value)
    ensures r.None? <==>
      && Truthy(name) && Truthy(email) && Truthy(password) && Truthy(role)
      && IsRole(role.value)
      && forall j :: 0 <= j < |users| ==> users[j].email != email.value
    ensures r.Some? ==> r.value in {AllFieldsRequired, InvalidRole, EmailRegistered}
    ensures r == Some(EmailRegistered) ==> exists j :: 0 <= j < |users| && users[j].email == email.value
  {
    if !(Truthy(name) && Truthy(email) && Truthy(password) && Truthy(role)) then Some(AllFieldsRequired)
    else if !IsRole(role.value) then Some(InvalidRole)
    else if FindByEmail(users, email.value).Some? then Some(EmailRegistered)
    else None
  }

  /** The user `register` saves: a hashed password and no Google id. */
  function LocalUser(id: nat, name: string, email: string, password: string, role: string): User {
    User(id, name, email, Some(BcryptHash(password)), role, None)
  }

  /** An account that has just registered can log in with the same email and
      password, naming its role or none. */
  lemma RegisterThenLogin(users: seq<User>, id: nat, name: string, email: string, password: string,
                          role: string, loginRole: Option<string>, production: bool)
    requires forall j :: 0 <= j < |users| ==> users[j].email != email
    requires !Truthy(loginRole) || loginRole.value == role
    ensures var u := LocalUser(id, name, email, password, role);
      Login(users + [u], email, Some(password), loginRole, production) == Ok(SendToken(u, 200, production))
  {
    var u := LocalUser(id, name, email, password, role);
    var all := users + [u];
    assert forall j :: 0 <= j < |users| ==> all[j] == users[j];
    assert all[|users|] == u;
  }

  /** An unknown email, and a wrong password for a password account when no
      role or the account's own role is given, get the same answer. */
  lemma UnknownEmailLooksLikeWrongPassword(users: seq<User>, unknown: string, known: string, guess: string,
                                           role: Option<string>, production: bool)
    requires forall j :: 0 <= j < |users| ==> users[j].email != unknown
    requires FindByEmail(users, known).Some?
    requires var u := users[FindByEmail(users, known).value];
      u.password.Some? && !PasswordMatches(guess, u.password.value) && (!Truthy(role) || u.role == role.value)
    ensures Login(users, unknown, Some(guess), role, production) == Login(users, known, Some(guess), role, production)
    ensures Login(users, unknown, Some(guess), role, production) == Err(InvalidCredentials)
  {
  }

  /** A registered email with a different role is answered "Please login as
      <role>" whatever the password, while an unknown email is answered
      "Invalid credentials": the answer tells the two apart and names the
      account's role. */
  lemma WrongRoleRevealsAccount(users: seq<User>, unknown: string, known: string, guess: Option<string>,
                                role: string, production: bool)
    requires forall j :: 0 <= j < |users| ==> users[j].email != unknown
    requires FindByEmail(users, known).Some?
    requires var u := users[FindByEmail(users, known).value];
      u.password.Some? && role != "" && u.role != role
    ensures var u := users[FindByEmail(users, known).value];
      Login(users, known, guess, Some(role), production) == Err(WrongRole(u.role))
    ensures Login(users, unknown, guess, Some(role), production) == Err(InvalidCredentials)
    ensures Login(users, known, guess, Some(role), production) != Login(users, unknown, guess, Some(role), production)
  {
    var u := users[FindByEmail(users, known).value];
    assert WrongRole(u.role).error[0] == 'P' && InvalidCredentials.error[0] == 'I';
  }

  // -------------------------------------------------------------- Google sign-in

  /** The fields of the Google profile the callback reads. */
  datatype GoogleProfile = GoogleProfile(id: string, displayName: string, emails: seq<string>)

  /** The error `profile.emails[0].value` throws when the profile has no email. */
  const NoProfileEmail := "profile has no email"

  predicate UniqueEmails(users: seq<User>) {
    forall i, j :: 0 <= i < j < |users| ==> users[i].email != users[j].email
  }

  predicate UniqueGoogleIds(users: seq<User>) {
    forall i, j :: 0 <= i < j < |users| && users[i].googleId.Some? ==> users[i].googleId != users[j].googleId
  }

  /** Ids are below the next fresh one, emails and Google ids are unique,
      every role is a known one and every account has a way to sign in. */
  predicate AccountsInvariant(users: seq<User>, nextId: nat) {
    && (forall i :: 0 <= i < |users| ==> users[i].id < nextId && IsRole(users[i].role))
    && (forall i :: 0 <= i < |users| ==> users[i].password.Some? || users[i].googleId.Some?)
    && UniqueEmails(users)
    && UniqueGoogleIds(users)
  }

  /** Adding an account under the next fresh id, with a known role, a way to
      sign in, an email no account uses and a Google id (if any) no account
      uses, keeps the invariant. */
  lemma AddAccountKeepsInvariant(users: seq<User>, nextId: nat, u: User)
    requires AccountsInvariant(users, nextId)
    requires u.id == nextId && IsRole(u.role) && (u.password.Some? || u.googleId.Some?)
    requires forall j :: 0 <= j < |users| ==> users[j].email != u.email
    requires u.googleId.Some? ==> forall j :: 0 <= j < |users| ==> users[j].googleId != u.googleId
    ensures AccountsInvariant(users + [u], nextId + 1)
  {
    var all := users + [u];
    assert forall j :: 0 <= j < |users| ==> all[j] == users[j];
  }

  /** Linking a Google id that no account carries to account `k` keeps the invariant. */
  lemma LinkGoogleIdKeepsInvariant(users: seq<User>, nextId: nat, k: nat, googleId: string)
    requires AccountsInvariant(users, nextId)
    requires k < |users|
    requires forall j :: 0 <= j < |users| ==> users[j].googleId != Some(googleId)
    ensures AccountsInvariant(users[k := users[k].(googleId := Some(googleId))], nextId)
  {
    var all := users[k := users[k].(googleId := Some(googleId))];
    assert forall j :: 0 <= j < |users| && j != k ==> all[j] == users[j];
  }

  class UserStore {
    var users: seq<User>
    /** The next fresh document id. */
    var nextId: nat

    ghost predicate Valid()
      reads this
    {
      AccountsInvariant(users, nextId)
    }

    constructor ()
      ensures Valid() && users == []
    {
      users, nextId := [], 0;
    }

    /** `register`: the guards, then a new password account answered with 201
        and a session. A refused request stores nothing. */
    method Register(name: Option<string>, email: Option<string>, password: Option<string>, role: Option<string>,
                    production: bool)
      returns (r: Result<Session>)
      requires Valid()
      modifies this
      ensures Valid()
      ensures RegisterGuard(old(users), name, email, password, role).Some? ==>
        r == Err(RegisterGuard(old(users), name, email, password, role).value)
        && users == old(users) && nextId == old(nextId)
      ensures RegisterGuard(old(users), name, email, password, role).None? ==>
        var u := LocalUser(old(nextId), name.value, email.value, password.value, role.value);
        && users == old(users) + [u]
        && nextId == old(nextId) + 1
        && r == Ok(SendToken(u, 201, production))
    {
      var refusal := RegisterGuard(users, name, email, password, role);
      if refusal.Some? {
        return Err(refusal.value);
      }
      var u := LocalUser(nextId, name.value, email.value, password.value, role.value);
      AddAccountKeepsInvariant(users, nextId, u);
      users := users + [u];
      nextId := nextId + 1;
      r := Ok(SendToken(u, 201, production));
    }

    /** The verify callback of the Google strategy: an account already linked
        to the profile signs in as it is; otherwise the account with the
        profile's first email gets the Google id linked to it; otherwise a
        student account without a password is created. A profile without an
        email fails. The result is the account passed to `done`. */
    method GoogleVerify(profile: GoogleProfile) returns (r: Result<User>)
      requires Valid()
      modifies this
      ensures Valid()
      ensures FindByGoogleId(old(users), profile.id).Some? ==>
        users == old(users) && nextId == old(nextId) && r == Ok(old(users)[FindByGoogleId(old(users), profile.id).value])
      ensures FindByGoogleId(old(users), profile.id).None? && profile.emails == [] ==>
        users == old(users) && nextId == old(nextId) && r.Err?
      ensures FindByGoogleId(old(users), profile.id).None? && profile.emails != []
              && FindByEmail(old(users), profile.emails[0]).Some? ==>
        var k := FindByEmail(old(users), profile.emails[0]).value;
        && users == old(users)[k := old(users)[k].(googleId := Some(profile.id))]
        && nextId == old(nextId)
        && r == Ok(users[k])
      ensures FindByGoogleId(old(users), profile.id).None? && profile.emails != []
              && FindByEmail(old(users), profile.emails[0]).None? ==>
        var u := User(old(nextId), profile.displayName, profile.emails[0], None, "student", Some(profile.id));
        users == old(users) + [u] && nextId == old(nextId) + 1 && r == Ok(u)
      ensures r.Ok? ==> r.value.googleId == Some(profile.id) && r.value in users
    {
      var linked := FindByGoogleId(users, profile.id);
      if linked.Some? {
        return Ok(users[linked.value]);
      }
      if profile.emails == [] {
        return Err(ApiError(500, NoProfileEmail, false));
      }
      var email := profile.emails[0];
      var existing := FindByEmail(users, email);
      if existing.Some? {
        var k := existing.value;
        LinkGoogleIdKeepsInvariant(users, nextId, k, profile.id);
        users := users[k := users[k].(googleId := Some(profile.id))];
        return Ok(users[k]);
      }
      var u := User(nextId, profile.displayName, email, None, "student", Some(profile.id));
      AddAccountKeepsInvariant(users, nextId, u);
      users := users + [u];
      nextId := nextId + 1;
      r := Ok(u);
    }
  }
}
