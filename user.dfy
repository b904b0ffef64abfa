/**
 * The user routes: signup, login and the user listing. Each handler is stated as a function of
 * what the repository and the foreign collaborators (the password hasher, the password
 * checker, the token maker) answer, and carried out on the in-memory store by a method.
 */
module UserHandlers {
  import opened Wrappers
  import opened Errors
  import opened Models
  import opened InMemoryStore
  import opened Server

  const UserCreated := "User created successfully"

  /** `createUserRequest` once bound: the full name, the email and the clear-text password. */
  datatype SignupRequest = SignupRequest(fullName: string, email: string, password: string)

  /** `loginUserRequest` once bound. */
  datatype LoginRequest = LoginRequest(email: string, password: string)

  /** What a signup leaves behind: the answer, the calls, and the user handed to `CreateUser`, if any. */
  datatype Signed = Signed(handled: Handled, created: Option<User>)

  /**
   * The user `createUser` builds: the request's name, email and password, the hash, and the
   * zero value in every other field (the in-memory store assigns no id).
   */
  function NewUser(req: SignupRequest, hashed: string): (u: User)
    ensures u.FullName == req.fullName && u.Email == req.email && u.Password == req.password
    ensures u.HashedPassword == hashed && u.ID == 0
  {
    User(0, NilUuid, req.password, hashed, req.fullName, req.email, None, ZeroTime, ZeroTime, None)
  }

  /**
   * `createUser` from the email gate on, shared by the code as written and the corrected
   * code: hash the password (a 500 when that fails), call `CreateUser` (a 500 when that
   * fails), then answer 201.
   */
  function CreateAfterGate(req: SignupRequest, hash: string -> Result<string, Error>, create: Outcome<Error>): (s: Signed)
  {
    var lookup := [GetUserByEmailCall(req.email)];
    match hash(req.password)
    case Failure(err) => Signed(Handled(ErrorResponse(StatusInternalServerError, err), lookup), None)
    case Success(hashed) =>
      var user := NewUser(req, hashed);
      var calls := lookup + [CreateUserCall(user)];
      match create
      case Fail(err) => Signed(Handled(ErrorResponse(StatusInternalServerError, err), calls), Some(user))
      case Pass => Signed(Handled(Response(StatusCreated, Envelope(true, UserCreated, NoData)), calls), Some(user))
  }

  /**
   * `createUser` as written: any lookup result other than `ErrUserNotFound` is answered with
   * `errorResponse(err)`. For an email that exists the error is nil, `err.Error()` panics, and
   * the framework's recovery answers a 500 without a body.
   */
  function SignupAsWritten(req: Result<SignupRequest, string>, lookup: Result<User, Error>,
                           hash: string -> Result<string, Error>, create: Outcome<Error>): (s: Signed)
    ensures s.created.Some? ==> req.Success? && lookup == Failure(UserNotFound)
    ensures req.Success? && lookup.Success? ==>
              s == Signed(Handled(Response(StatusInternalServerError, NoBody), [GetUserByEmailCall(req.value.email)]), None)
  {
    match req
    case Failure(reason) => Signed(Handled(ErrorResponse(StatusBadRequest, Binding(reason)), []), None)
    case Success(r) =>
      match lookup
      case Success(_) => Signed(Handled(Response(StatusInternalServerError, NoBody), [GetUserByEmailCall(r.email)]), None)
      case Failure(UserNotFound) => CreateAfterGate(r, hash, create)
      case Failure(err) => Signed(Handled(ErrorResponse(StatusBadRequest, err), [GetUserByEmailCall(r.email)]), None)
  }

  /**
   * `createUser` as evidently intended: a found user is answered 400 with
   * `ErrUserAlreadyExists`, any other lookup error 400 with that error, and only
   * `ErrUserNotFound` goes on to create the user.
   */
  function Signup(req: Result<SignupRequest, string>, lookup: Result<User, Error>,
                  hash: string -> Result<string, Error>, create: Outcome<Error>): (s: Signed)
    ensures s.created.Some? ==>
              && req.Success? && lookup == Failure(UserNotFound) && hash(req.value.password).Success?
              && s.created.value == NewUser(req.value, hash(req.value.password).value)
    ensures s.created.Some? ==> CreateUserCall(s.created.value) in s.handled.calls
    ensures forall c :: c in s.handled.calls && c.CreateUserCall? ==> s.created == Some(c.user)
    ensures s.handled.response.status == StatusCreated <==> s.created.Some? && create == Pass
  {
    match req
    case Failure(reason) => Signed(Handled(ErrorResponse(StatusBadRequest, Binding(reason)), []), None)
    case Success(r) =>
      match lookup
      case Success(_) => Signed(Handled(ErrorResponse(StatusBadRequest, UserAlreadyExists), [GetUserByEmailCall(r.email)]), None)
      case Failure(UserNotFound) => CreateAfterGate(r, hash, create)
      case Failure(err) => Signed(Handled(ErrorResponse(StatusBadRequest, err), [GetUserByEmailCall(r.email)]), None)
  }

  /**
   * For an email already registered, the code as written answers a bodiless 500 where the
   * corrected code answers 400 with "user already with this email exists"; neither creates a user.
   */
  lemma ExistingEmailPanics(req: SignupRequest, existing: User, hash: string -> Result<string, Error>, create: Outcome<Error>)
    ensures SignupAsWritten(Success(req), Success(existing), hash, create).handled.response
            == Response(StatusInternalServerError, NoBody)
    ensures Signup(Success(req), Success(existing), hash, create).handled.response
            == Response(StatusBadRequest, ErrorBody("user already with this email exists"))
    ensures SignupAsWritten(Success(req), Success(existing), hash, create).created.None?
    ensures Signup(Success(req), Success(existing), hash, create).created.None?
  {
  }

  /** Both versions agree on every request whose email is not found, or whose lookup fails. */
  lemma SignupAgreesUnlessFound(req: Result<SignupRequest, string>, lookup: Result<User, Error>,
                                hash: string -> Result<string, Error>, create: Outcome<Error>)
    requires req.Failure? || lookup.Failure?
    ensures SignupAsWritten(req, lookup, hash, create) == Signup(req, lookup, hash, create)
  {
  }

  /**
   * On the in-memory store an email that is already present is never inserted again: the
   * lookup finds it, and no `CreateUser` call is made. When it is absent the lookup fails
   * with `ErrUserNotFound`, so the "already exists" answer is given exactly for present emails.
   */
  lemma NoDuplicateEmail(users: seq<User>, req: SignupRequest, hash: string -> Result<string, Error>, create: Outcome<Error>)
    ensures var s := Signup(Success(req), UserByEmail(users, req.email), hash, create);
            (exists j :: 0 <= j < |users| && users[j].Email == req.email) <==>
              s.handled.response == ErrorResponse(StatusBadRequest, UserAlreadyExists)
    ensures (exists j :: 0 <= j < |users| && users[j].Email == req.email) ==>
              Signup(Success(req), UserByEmail(users, req.email), hash, create).created.None?
  {
  }

  /**
   * `loginUser`: an unknown email and a wrong password are both answered 400 with
   * `ErrInvalidCredentials`; any other lookup error, a token duration that does not parse
   * and a token maker failure are 500s; otherwise a token for the stored user's email.
   */
  function Login(req: Result<LoginRequest, string>, lookup: Result<User, Error>,
                 passwordMatches: (string, string) -> bool, duration: Result<int, Error>,
                 createToken: (string, int) -> Result<string, Error>): (h: Handled)
    ensures h.response.status == StatusOK <==>
              && req.Success? && lookup.Success? && passwordMatches(req.value.password, lookup.value.HashedPassword)
              && duration.Success? && createToken(lookup.value.Email, duration.value).Success?
  {
    match req
    case Failure(reason) => Handled(ErrorResponse(StatusBadRequest, Binding(reason)), [])
    case Success(r) =>
      var get := [GetUserByEmailCall(r.email)];
      match lookup
      case Failure(UserNotFound) => Handled(ErrorResponse(StatusBadRequest, InvalidCredentials), get)
      case Failure(err) => Handled(ErrorResponse(StatusInternalServerError, err), get)
      case Success(user) =>
        if !passwordMatches(r.password, user.HashedPassword) then
          Handled(ErrorResponse(StatusBadRequest, InvalidCredentials), get)
        else
          match duration
          case Failure(err) => Handled(ErrorResponse(StatusInternalServerError, err), get)
          case Success(d) =>
            var calls := get + [CreateTokenCall(user.Email, d)];
            match createToken(user.Email, d)
            case Failure(err) => Handled(ErrorResponse(StatusInternalServerError, err), calls)
            case Success(token) => Handled(Response(StatusOK, Envelope(true, "", AccessToken(token))), calls)
  }

  /**
   * A caller cannot tell an unknown email from a known one with a wrong password: both get
   * the same 400 with "invalid credentials" and no token is made.
   */
  lemma UnknownEmailLooksLikeBadPassword(req: LoginRequest, user: User,
                                         passwordMatches: (string, string) -> bool, duration: Result<int, Error>,
                                         createToken: (string, int) -> Result<string, Error>)
    requires !passwordMatches(req.password, user.HashedPassword)
    ensures var unknown := Login(Success(req), Failure(UserNotFound), passwordMatches, duration, createToken);
            var wrong := Login(Success(req), Success(user), passwordMatches, duration, createToken);
            && unknown == wrong
            && unknown.response == Response(StatusBadRequest, ErrorBody("invalid credentials"))
            && unknown.calls == [GetUserByEmailCall(req.email)]
  {
  }

  /** Every other lookup error is a 500 carrying that error's text. */
  lemma LoginLookupErrors(req: LoginRequest, err: Error,
                          passwordMatches: (string, string) -> bool, duration: Result<int, Error>,
                          createToken: (string, int) -> Result<string, Error>)
    requires err != UserNotFound
    ensures Login(Success(req), Failure(err), passwordMatches, duration, createToken).response
            == ErrorResponse(StatusInternalServerError, err)
  {
  }

  /** The token is made for the stored user's email, for the configured duration, and is the one returned. */
  lemma TokenSubjectIsStoredEmail(req: Result<LoginRequest, string>, lookup: Result<User, Error>,
                                  passwordMatches: (string, string) -> bool, duration: Result<int, Error>,
                                  createToken: (string, int) -> Result<string, Error>)
    ensures var h := Login(req, lookup, passwordMatches, duration, createToken);
            forall c :: c in h.calls && c.CreateTokenCall? ==>
              lookup.Success? && duration.Success? && c == CreateTokenCall(lookup.value.Email, duration.value)
    ensures var h := Login(req, lookup, passwordMatches, duration, createToken);
            h.response.status == StatusOK ==>
              h.response.body == Envelope(true, "", AccessToken(createToken(lookup.value.Email, duration.value).value))
  {
  }

  /** `getUsers`: the listing as `GetAllUsers` gives it, or a 500 with its error. */
  function ListUsers(joined: Result<seq<UserWallet>, Error>): (h: Handled)
    ensures h.calls == [GetAllUsersCall]
    ensures joined.Success? <==> h.response.status == StatusOK
    ensures joined.Success? ==> h.response.body == Envelope(true, "", Users(joined.value))
    ensures joined.Failure? ==> h.response == ErrorResponse(StatusInternalServerError, joined.error)
  {
    match joined
    case Failure(err) => Handled(ErrorResponse(StatusInternalServerError, err), [GetAllUsersCall])
    case Success(users) => Handled(Response(StatusOK, Envelope(true, "", Users(users))), [GetAllUsersCall])
  }

  /**
   * On the in-memory store the listing has one entry per user, in order, with that user's
   * first wallet, and answers a 500 with `ErrWalletNotFound` when a user has none.
   */
  lemma ListingOfStore(users: seq<User>, rows: seq<WalletRow>)
    ensures var h := ListUsers(JoinUsers(users, rows));
            h.response.status == StatusOK <==> forall i :: 0 <= i < |users| ==> WalletByUserId(rows, users[i].ID).Success?
    ensures var h := ListUsers(JoinUsers(users, rows));
            h.response.status == StatusOK ==>
              && |h.response.body.data.users| == |users|
              && forall i :: 0 <= i < |users| ==>
                   h.response.body.data.users[i] == Join(users[i], WalletByUserId(rows, users[i].ID).value)
    ensures var h := ListUsers(JoinUsers(users, rows));
            h.response.status != StatusOK ==> h.response == ErrorResponse(StatusInternalServerError, WalletNotFound)
  {
    JoinUsersMeaning(users, rows);
  }

  /** `createUser` (corrected) on the in-memory store: the user is appended exactly when the handler creates one. */
  method CreateUser(repo: InMemory, req: Result<SignupRequest, string>, hash: string -> Result<string, Error>) returns (h: Handled)
    modifies repo
    ensures var email := if req.Success? then req.value.email else "";
            var s := Signup(req, UserByEmail(old(repo.Users), email), hash, Pass);
            && h == s.handled
            && repo.Users == old(repo.Users) + (if s.created.Some? then [s.created.value] else [])
            && repo.Wallets == old(repo.Wallets)
  {
    if req.Failure? {
      return Handled(ErrorResponse(StatusBadRequest, Binding(req.error)), []);
    }
    var r := req.value;
    var user := repo.GetUserByEmail(r.email);
    var get := [GetUserByEmailCall(r.email)];
    match user {
      case Success(_) =>
        return Handled(ErrorResponse(StatusBadRequest, UserAlreadyExists), get);
      case Failure(err) =>
        if err != UserNotFound {
          return Handled(ErrorResponse(StatusBadRequest, err), get);
        }
    }
    var hashed := hash(r.password);
    if hashed.Failure? {
      return Handled(ErrorResponse(StatusInternalServerError, hashed.error), get);
    }
    var arg := NewUser(r, hashed.value);
    var created := repo.CreateUser(arg);
    var calls := get + [CreateUserCall(arg)];
    match created {
      case Fail(err) =>
        return Handled(ErrorResponse(StatusInternalServerError, err), calls);
      case Pass =>
    }
    return Handled(Response(StatusCreated, Envelope(true, UserCreated, NoData)), calls);
  }

  /** `loginUser` on the in-memory store. */
  method LoginUser(repo: InMemory, req: Result<LoginRequest, string>,
                   passwordMatches: (string, string) -> bool, duration: Result<int, Error>,
                   createToken: (string, int) -> Result<string, Error>) returns (h: Handled)
    ensures var email := if req.Success? then req.value.email else "";
            h == Login(req, UserByEmail(repo.Users, email), passwordMatches, duration, createToken)
  {
    if req.Failure? {
      return Handled(ErrorResponse(StatusBadRequest, Binding(req.error)), []);
    }
    var r := req.value;
    var user := repo.GetUserByEmail(r.email);
    var get := [GetUserByEmailCall(r.email)];
    match user {
      case Failure(err) =>
        if err == UserNotFound {
          return Handled(ErrorResponse(StatusBadRequest, InvalidCredentials), get);
        }
        return Handled(ErrorResponse(StatusInternalServerError, err), get);
      case Success(_) =>
    }
    if !passwordMatches(r.password, user.value.HashedPassword) {
      return Handled(ErrorResponse(StatusBadRequest, InvalidCredentials), get);
    }
    if duration.Failure? {
      return Handled(ErrorResponse(StatusInternalServerError, duration.error), get);
    }
    var calls := get + [CreateTokenCall(user.value.Email, duration.value)];
    var token := createToken(user.value.Email, duration.value);
    if token.Failure? {
      return Handled(ErrorResponse(StatusInternalServerError, token.error), calls);
    }
    return Handled(Response(StatusOK, Envelope(true, "", AccessToken(token.value))), calls);
  }

  /** `getUsers` on the in-memory store. */
  method GetUsers(repo: InMemory) returns (h: Handled)
    ensures h == ListUsers(JoinUsers(repo.Users, repo.Rows()))
  {
    var users := repo.GetAllUsers();
    if users.Failure? {
      return Handled(ErrorResponse(StatusInternalServerError, users.error), [GetAllUsersCall]);
    }
    return Handled(Response(StatusOK, Envelope(true, "", Users(users.value))), [GetAllUsersCall]);
  }
}
