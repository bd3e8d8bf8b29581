/**
 * backend/routes/auth.js: registration, login and the session check.
 * The users table is held in memory by a class; bcrypt's hash is a value the
 * caller supplies and bcrypt's compare an oracle, jwt.sign is modelled by the
 * claims and lifetime it is given, jwt.verify by the oracle of the
 * middleware.
 */
module AuthRoutes {
  import opened Wrappers
  import opened Http
  import opened AuthMiddleware

  /** A row of users. */
  datatype User = User(
    id: int, email: string, passwordHash: string, role: string, fullName: string,
    studentId: Option<string>, department: Option<string>)

  /** A user row without its password hash: what RETURNING and the
      session check send back. */
  datatype Profile = Profile(
    id: int, email: string, role: string, fullName: string,
    studentId: Option<string>, department: Option<string>)

  function ProfileOf(u: User): (p: Profile)
    ensures p.id == u.id && p.email == u.email && p.role == u.role && p.fullName == u.fullName
    ensures p.studentId == u.studentId && p.department == u.department
  {
    Profile(u.id, u.email, u.role, u.fullName, u.studentId, u.department)
  }

  /** The body of POST /register; a field the client leaves out is None. */
  datatype RegisterRequest = RegisterRequest(
    email: Option<string>, password: Option<string>, role: Option<string>,
    fullName: Option<string>, studentId: Option<string>, department: Option<string>)

  /** No two rows share an email. */
  ghost predicate UniqueEmails(users: seq<User>) {
    forall i, j | 0 <= i < j < |users| :: users[i].email != users[j].email
  }

  /** No two rows share an id. */
  ghost predicate DistinctIds(users: seq<User>) {
    forall i, j | 0 <= i < j < |users| :: users[i].id != users[j].id
  }

  /** Every id is below the next value of the serial. */
  ghost predicate IdsBelow(users: seq<User>, nextId: int) {
    forall i | 0 <= i < |users| :: users[i].id < nextId
  }

  /** The lookup of a user by email: the first row with that email. */
  function FindByEmail(users: seq<User>, email: string): (r: Option<nat>)
    ensures r.Some? ==> r.value < |users| && users[r.value].email == email
    ensures r.Some? ==> forall i | 0 <= i < r.value :: users[i].email != email
    ensures r.None? <==> forall i | 0 <= i < |users| :: users[i].email != email
  {
    if users == [] then None
    else if users[0].email == email then Some(0)
    else match FindByEmail(users[1..], email)
      case None => None
      case Some(i) => Some(i + 1)
  }

  /** The lookup of a user by id: the first row with that id. */
  function FindById(users: seq<User>, id: int): (r: Option<nat>)
    ensures r.Some? ==> r.value < |users| && users[r.value].id == id
    ensures r.Some? ==> forall i | 0 <= i < r.value :: users[i].id != id
    ensures r.None? <==> forall i | 0 <= i < |users| :: users[i].id != id
  {
    if users == [] then None
    else if users[0].id == id then Some(0)
    else match FindById(users[1..], id)
      case None => None
      case Some(i) => Some(i + 1)
  }

  // ---------------------------------------------------------------------------
  // POST /register
  // ---------------------------------------------------------------------------

  const AllFieldsRequired: Reply := Json(400, false, "All fields are required")
  const InvalidRole: Reply := Json(400, false, "Invalid role")
  const StudentIdRequired: Reply := Json(400, false, "Student ID required for students")
  const UserExists: Reply := Json(400, false, "User already exists")
  const Registered: Reply := Json(201, true, "User registered successfully")

  predicate HasAllFields(req: RegisterRequest) {
    TruthyString(req.email) && TruthyString(req.password) && TruthyString(req.role) && TruthyString(req.fullName)
  }

  /** The refusal of the first validation that fails, in the handler's
      order, or None when the request may be inserted. */
  function RegisterCheck(users: seq<User>, req: RegisterRequest): (refusal: Option<Reply>)
    ensures !HasAllFields(req) ==> refusal == Some(AllFieldsRequired)
    ensures HasAllFields(req) && req.role.value != "teacher" && req.role.value != "student"
            ==> refusal == Some(InvalidRole)
    ensures HasAllFields(req) && req.role.value == "student" && !TruthyString(req.studentId)
            ==> refusal == Some(StudentIdRequired)
    ensures HasAllFields(req) && (req.role.value == "teacher" || TruthyString(req.studentId))
            && req.role.value in {"teacher", "student"} && FindByEmail(users, req.email.value).Some?
            ==> refusal == Some(UserExists)
    ensures refusal.None? <==>
      && HasAllFields(req)
      && (req.role.value == "teacher" || (req.role.value == "student" && TruthyString(req.studentId)))
      && forall i | 0 <= i < |users| :: users[i].email != req.email.value
  {
    if !HasAllFields(req) then Some(AllFieldsRequired)
    else if req.role.value != "teacher" && req.role.value != "student" then Some(InvalidRole)
    else if req.role.value == "student" && !TruthyString(req.studentId) then Some(StudentIdRequired)
    else if FindByEmail(users, req.email.value).Some? then Some(UserExists)
    else None
  }

  /** `v || null`: a falsy value is stored as NULL. */
  function NullIfFalsy(v: Option<string>): (r: Option<string>)
    ensures r.None? <==> !TruthyString(v)
    ensures r.Some? ==> r == v
  {
    if TruthyString(v) then v else None
  }

  /** The row the INSERT adds, with the serial id and the supplied hash. */
  function NewUser(id: int, req: RegisterRequest, hashed: string): (u: User)
    requires HasAllFields(req)
    ensures u.id == id && u.email == req.email.value && u.passwordHash == hashed
    ensures u.role == req.role.value && u.fullName == req.fullName.value
    ensures u.studentId == NullIfFalsy(req.studentId) && u.department == NullIfFalsy(req.department)
  {
    User(id, req.email.value, hashed, req.role.value, req.fullName.value,
         NullIfFalsy(req.studentId), NullIfFalsy(req.department))
  }

  /** The optional columns are NULL exactly when their field is falsy,
      whatever the role: a teacher may store a student id. */
  lemma OptionalColumnsNullWhenFalsy(id: int, req: RegisterRequest, hashed: string)
    requires HasAllFields(req)
    ensures NewUser(id, req, hashed).studentId.None? <==> (req.studentId.None? || req.studentId.value == "")
    ensures NewUser(id, req, hashed).department.None? <==> (req.department.None? || req.department.value == "")
  {
  }

  // ---------------------------------------------------------------------------
  // POST /login
  // ---------------------------------------------------------------------------

  /** expiresIn '24h', in seconds. */
  const TokenLifetimeSeconds: int := 24 * 60 * 60

  const CredentialsRequired: Reply := Json(400, false, "Email and password required")
  const InvalidCredentials: Reply := Json(401, false, "Invalid credentials")
  const LoginSuccessful: Reply := Json(200, true, "Login successful")

  /** bcrypt.compare(password, hash) as an oracle. */
  type PasswordCheck = (string, string) -> bool

  datatype LoginOutcome =
    | LoginRefused(reply: Reply)
    /** The claims that were signed, their lifetime, and the user sent back. */
    | LoggedIn(claims: Claims, expiresIn: int, user: Profile)

  function LoginReply(o: LoginOutcome): Reply {
    match o
    case LoginRefused(reply) => reply
    case LoggedIn(_, _, _) => LoginSuccessful
  }

  /** POST /login. */
  function Login(users: seq<User>, email: Option<string>, password: Option<string>, matches: PasswordCheck)
    : (o: LoginOutcome)
    ensures !TruthyString(email) || !TruthyString(password) ==> o == LoginRefused(CredentialsRequired)
    ensures o.LoggedIn? <==>
      && TruthyString(email) && TruthyString(password)
      && FindByEmail(users, email.value).Some?
      && matches(password.value, users[FindByEmail(users, email.value).value].passwordHash)
    ensures o.LoggedIn? ==>
      var u := users[FindByEmail(users, email.value).value];
      o.claims == Claims(u.id, u.email, u.role) && o.expiresIn == TokenLifetimeSeconds && o.user == ProfileOf(u)
    ensures TruthyString(email) && TruthyString(password) && !o.LoggedIn? ==> o == LoginRefused(InvalidCredentials)
  {
    if !TruthyString(email) || !TruthyString(password) then LoginRefused(CredentialsRequired)
    else match FindByEmail(users, email.value)
      case None => LoginRefused(InvalidCredentials)
      case Some(i) =>
        var u := users[i];
        if !matches(password.value, u.passwordHash) then LoginRefused(InvalidCredentials)
        else LoggedIn(Claims(u.id, u.email, u.role), TokenLifetimeSeconds, ProfileOf(u))
  }

  /** An unknown email and a wrong password give the same answer, so the
      reply does not reveal which accounts exist. */
  lemma UnknownEmailLooksLikeWrongPassword(users: seq<User>, email: string, password: string,
                                            matches: PasswordCheck, other: string)
    requires email != [] && password != [] && other != []
    requires FindByEmail(users, email).None?
    requires FindByEmail(users, other).Some? && !matches(password, users[FindByEmail(users, other).value].passwordHash)
    ensures Login(users, Some(email), Some(password), matches) == Login(users, Some(other), Some(password), matches)
  {
  }

  // ---------------------------------------------------------------------------
  // GET /verify
  // ---------------------------------------------------------------------------

  const NoTokenProvided: Reply := Json(401, false, "No token provided")
  const InvalidToken: Reply := Json(403, false, "Invalid token")
  const UserNotFound: Reply := Json(404, false, "User not found")

  datatype VerifyOutcome = VerifyRefused(reply: Reply) | Verified(user: Profile)

  /** GET /verify: the same header parsing as authenticateToken, then the
      user row named by the token's id. */
  function VerifySession(users: seq<User>, header: Option<string>, verify: Verifier): (o: VerifyOutcome)
    ensures BearerToken(header).None? ==> o == VerifyRefused(NoTokenProvided)
    ensures BearerToken(header).Some? && verify(BearerToken(header).value).None? ==> o == VerifyRefused(InvalidToken)
    ensures (BearerToken(header).Some? && verify(BearerToken(header).value).Some?
             && FindById(users, verify(BearerToken(header).value).value.id).None?) ==> o == VerifyRefused(UserNotFound)
    ensures o.Verified? ==>
      && BearerToken(header).Some? && verify(BearerToken(header).value).Some?
      && FindById(users, verify(BearerToken(header).value).value.id).Some?
      && o.user == ProfileOf(users[FindById(users, verify(BearerToken(header).value).value.id).value])
  {
    match BearerToken(header)
    case None => VerifyRefused(NoTokenProvided)
    case Some(t) =>
      match verify(t)
      case None => VerifyRefused(InvalidToken)
      case Some(claims) =>
        match FindById(users, claims.id)
        case None => VerifyRefused(UserNotFound)
        case Some(i) => Verified(ProfileOf(users[i]))
  }

  /** A token carrying the claims issued at login leads /verify back to the
      user who logged in, as long as the row is still there. */
  lemma LoginThenVerify(users: seq<User>, email: string, password: string, matches: PasswordCheck,
                        header: Option<string>, verify: Verifier)
    requires DistinctIds(users)
    requires Login(users, Some(email), Some(password), matches).LoggedIn?
    requires BearerToken(header).Some?
    requires verify(BearerToken(header).value) == Some(Login(users, Some(email), Some(password), matches).claims)
    ensures VerifySession(users, header, verify) == Verified(Login(users, Some(email), Some(password), matches).user)
  {
    var i := FindByEmail(users, email).value;
    assert FindById(users, users[i].id) == Some(i);
  }

  // ---------------------------------------------------------------------------
  // The users table
  // ---------------------------------------------------------------------------

  class UserStore {
    var users: seq<User>
    /** The next value of the id serial. */
    var nextId: int

    ghost predicate Valid()
      reads this
    {
      UniqueEmails(users) && DistinctIds(users) && IdsBelow(users, nextId)
    }

    constructor ()
      ensures Valid() && users == [] && nextId == 1
    {
      users := [];
      nextId := 1;
    }

    /** POST /register, given the bcrypt hash of the password: a refused
        request inserts nothing; an accepted one inserts one row with the
        next id and answers 201. */
    method Register(req: RegisterRequest, hashed: string) returns (reply: Reply, created: Option<User>)
      requires Valid()
      modifies this
      ensures Valid()
      ensures RegisterCheck(old(users), req).Some? ==>
        && reply == RegisterCheck(old(users), req).value && created == None
        && users == old(users) && nextId == old(nextId)
      ensures RegisterCheck(old(users), req).None? ==>
        && reply == Registered && created == Some(NewUser(old(nextId), req, hashed))
        && users == old(users) + [created.value] && nextId == old(nextId) + 1
    {
      var refusal := RegisterCheck(users, req);
      if refusal.Some? {
        return refusal.value, None;
      }
      var u := NewUser(nextId, req, hashed);
      users := users + [u];
      nextId := nextId + 1;
      reply, created := Registered, Some(u);
    }
  }

  /** Registering an address that is already taken is refused, so the second
      of two registrations with one email inserts nothing. */
  lemma {:induction false} SecondRegistrationRefused(users: seq<User>, u: User, req: RegisterRequest)
    requires HasAllFields(req) && req.email.value == u.email
    ensures RegisterCheck(users + [u], req).Some?
  {
    assert (users + [u])[|users|].email == req.email.value;
  }

  /** A user who has just registered can log in with the same password. */
  lemma {:induction false} RegisteredCanLogIn(users: seq<User>, nextId: int, req: RegisterRequest, hashed: string,
                                            matches: PasswordCheck)
    requires RegisterCheck(users, req).None?
    requires matches(req.password.value, hashed)
    ensures var u := NewUser(nextId, req, hashed);
      Login(users + [u], req.email, req.password, matches)
        == LoggedIn(Claims(nextId, req.email.value, req.role.value), TokenLifetimeSeconds, ProfileOf(u))
  {
    var u := NewUser(nextId, req, hashed);
    var all := users + [u];
    assert all[|users|] == u;
    assert forall i | 0 <= i < |users| :: all[i].email != u.email;
    assert FindByEmail(all, u.email) == Some(|users|);
  }
}
