/** The authentication service: signup stores a user under a password hash,
    login checks a password against the stored hash and issues a signed
    token. Hashing, verification and signing are the parameters `hash`,
    `verify` and `sign`; the user table is a sequence of rows in storage
    order. */
module Auth {
  import opened Common

  /** The body of both auth routes. */
  datatype AuthDto = AuthDto(email: string, password: string)

  /** A row of the user table. `createdAt` is the storage clock's reading at insertion. */
  datatype User = User(
    id: string,
    email: string,
    hash: string,
    createdAt: int,
    firstName: Option<string>,
    lastName: Option<string>)

  type Users = seq<User>

  /** The columns signup selects for its answer; the hash is not among them. */
  datatype PublicUser = PublicUser(
    id: string,
    email: string,
    createdAt: int,
    firstName: Option<string>,
    lastName: Option<string>)

  /** What login answers: the user row without its hash, plus the token. */
  datatype LoginResponse = LoginResponse(
    id: string,
    email: string,
    createdAt: int,
    firstName: Option<string>,
    lastName: Option<string>,
    accessToken: string)

  /** The claims signed into an access token. */
  datatype JwtPayload = JwtPayload(sub: string, email: string)

  /** The signing options: lifetime in minutes and the configured secret
      (absent when the configuration has none). */
  datatype SignOptions = SignOptions(expiresInMinutes: nat, secret: Option<string>)

  datatype TokenResponse = TokenResponse(accessToken: string)

  /** What the auth service throws: a Forbidden error with a message, or a
      storage error rethrown unchanged. */
  datatype AuthError = Forbidden(message: string) | Rethrown(cause: StorageError)

  const CredentialsTaken: string := "Credentials taken!"
  const CredentialsIncorrect: string := "Credentials incorrect"
  const TokenLifetimeMinutes: nat := 60

  /** The result of a signup, and the user table after it. */
  datatype SignupStep = SignupStep(result: Result<PublicUser, AuthError>, users: Users)

  predicate HasEmail(us: Users, email: string) {
    exists i :: 0 <= i < |us| && us[i].email == email
  }

  predicate HasUserId(us: Users, id: string) {
    exists i :: 0 <= i < |us| && us[i].id == id
  }

  /** Email is a unique column. */
  ghost predicate EmailsUnique(us: Users) {
    forall i, j :: 0 <= i < j < |us| ==> us[i].email != us[j].email
  }

  function Public(u: User): PublicUser {
    PublicUser(u.id, u.email, u.createdAt, u.firstName, u.lastName)
  }

  /** Inserting a user: the store fails with the injected fault, or with a
      unique violation when the email or the id is already taken. */
  function InsertUser(us: Users, u: User, fault: Option<StorageError>): (r: Result<Users, StorageError>)
    ensures r.Ok? <==> fault.None? && !HasEmail(us, u.email) && !HasUserId(us, u.id)
    ensures r.Ok? ==> r.value == us + [u]
    ensures r.Err? && fault.None? ==> r.error == KnownRequestError(UniqueViolation)
  {
    if fault.Some? then Err(fault.value)
    else if HasEmail(us, u.email) || HasUserId(us, u.id) then Err(KnownRequestError(UniqueViolation))
    else Ok(us + [u])
  }

  /** The error signup throws for a storage error: a unique violation becomes
      Forbidden "Credentials taken!", anything else is rethrown as it is. */
  function SignupError(e: StorageError): (r: AuthError)
    ensures r == Forbidden(CredentialsTaken) <==> e == KnownRequestError(UniqueViolation)
    ensures r != Forbidden(CredentialsTaken) ==> r == Rethrown(e)
  {
    if e.KnownRequestError? && e.code == UniqueViolation then Forbidden(CredentialsTaken)
    else Rethrown(e)
  }

  /** `signup(dto)`: stores a user holding the hash of the password under the
      store-generated id `newId` and creation time `now`, and answers the
      selected public columns. */
  function Signup(us: Users, dto: AuthDto, newId: string, now: int, hash: string -> string,
                  fault: Option<StorageError>): (r: SignupStep)
    ensures r.result.Ok? <==> fault.None? && !HasEmail(us, dto.email) && !HasUserId(us, newId)
    ensures r.result.Ok? ==>
      && r.users == us + [User(newId, dto.email, hash(dto.password), now, None, None)]
      && r.result.value == PublicUser(newId, dto.email, now, None, None)
    ensures r.result.Err? ==> r.users == us
    ensures r.result.Err? && fault.None? ==> r.result.error == Forbidden(CredentialsTaken)
    ensures r.result.Err? && fault.Some? ==> r.result.error == SignupError(fault.value)
  {
    var row := User(newId, dto.email, hash(dto.password), now, None, None);
    match InsertUser(us, row, fault)
    case Ok(us') => SignupStep(Ok(Public(row)), us')
    case Err(e) => SignupStep(Err(SignupError(e)), us)
  }

  /** The first user with the given email (`findFirst`), or nothing when no
      user has it. */
  function FindByEmail(us: Users, email: string): (r: Option<nat>)
    ensures r.None? <==> !HasEmail(us, email)
    ensures r.Some? ==> r.value < |us| && us[r.value].email == email
    ensures r.Some? ==> forall j :: 0 <= j < r.value ==> us[j].email != email
  {
    FirstIndex(us, (u: User) => u.email == email)
  }

  /** Row `i` is the first user with this email, the one `findFirst` answers. */
  predicate FirstWithEmail(us: Users, email: string, i: int) {
    0 <= i < |us| && us[i].email == email && forall j :: 0 <= j < i ==> us[j].email != email
  }

  /** `signToken(userId, email)`: signs the subject and email with the
      configured secret and a 60-minute lifetime. */
  function SignToken(userId: string, email: string, secret: Option<string>,
                     sign: (JwtPayload, SignOptions) -> string): (r: TokenResponse)
    ensures r.accessToken == sign(JwtPayload(userId, email), SignOptions(60, secret))
  {
    TokenResponse(sign(JwtPayload(userId, email), SignOptions(TokenLifetimeMinutes, secret)))
  }

  /** `login(dto)`: finds the user by email and checks the password against
      the stored hash. An unknown email and a wrong password give the same
      Forbidden error; a storage error is rethrown. On success the answer is
      the user row without its hash, plus a token for that user. */
  function Login(us: Users, dto: AuthDto, fault: Option<StorageError>,
                 verify: (string, string) -> bool, secret: Option<string>,
                 sign: (JwtPayload, SignOptions) -> string): (r: Result<LoginResponse, AuthError>)
    ensures fault.Some? ==> r == Err(Rethrown(fault.value))
    ensures fault.None? && r.Err? ==> r.error == Forbidden(CredentialsIncorrect)
    ensures r.Ok? <==>
      fault.None? && exists i :: FirstWithEmail(us, dto.email, i) && verify(us[i].hash, dto.password)
    ensures r.Ok? ==>
      exists i :: FirstWithEmail(us, dto.email, i)
        && r.value == LoginResponse(us[i].id, us[i].email, us[i].createdAt, us[i].firstName,
                                    us[i].lastName, r.value.accessToken)
    ensures r.Ok? ==>
      r.value.accessToken == sign(JwtPayload(r.value.id, r.value.email),
                                  SignOptions(TokenLifetimeMinutes, secret))
  {
    if fault.Some? then Err(Rethrown(fault.value))
    else
      match FindByEmail(us, dto.email)
      case None => Err(Forbidden(CredentialsIncorrect))
      case Some(i) =>
        var user := us[i];
        if !verify(user.hash, dto.password) then
          Err(Forbidden(CredentialsIncorrect))
        else
          var token := SignToken(user.id, user.email, secret, sign).accessToken;
          Ok(LoginResponse(user.id, user.email, user.createdAt, user.firstName, user.lastName, token))
  }
}
