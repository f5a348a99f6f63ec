/** The password/refresh-token credential lifecycle of the backend:
    register, login, refresh (single-use rotation) and logout, as pure
    transitions over a store of users keyed by e-mail and a table of refresh
    tokens keyed by their value.

    bcrypt, `crypto.randomBytes` and JWT signing are not computed here: the
    password hash and the new refresh-token value arrive as inputs, the
    bcrypt comparison and the JWT signer as function parameters, and the
    clock as the integer `now` (milliseconds). */
module AuthService {
  import opened Common
  import opened AuthSchemas

  const REFRESH_TOKEN_EXPIRY_DAYS: int := 7
  /** Seven days in milliseconds: the lifetime of every refresh token. */
  const REFRESH_TOKEN_TTL_MS: int := REFRESH_TOKEN_EXPIRY_DAYS * 24 * 60 * 60 * 1000

  const EMAIL_TAKEN := AppError("An account with this email already exists", 409)
  const INVALID_CREDENTIALS := AppError("Invalid email or password", 401)
  const INVALID_REFRESH := AppError("Invalid refresh token", 401)
  const REFRESH_EXPIRED := AppError("Refresh token expired", 401)
  const SECRET_MISSING := AppError("JWT_ACCESS_SECRET not configured", 500)

  datatype User = User(id: string, name: string, email: string, passwordHash: string,
                       createdAt: int, updatedAt: int)

  /** A stored refresh token; the token value itself is the key of the table. */
  datatype RefreshRecord = RefreshRecord(userId: string, expiresAt: int, createdAt: int)

  datatype Store = Store(users: map<string, User>, tokens: map<string, RefreshRecord>)

  /** What register and login hand back about a user: no password hash. */
  datatype UserView = UserView(id: string, name: string, email: string, createdAt: int, updatedAt: int)

  datatype TokenPair = TokenPair(accessToken: string, refreshToken: string)

  datatype Session = Session(user: UserView, tokens: TokenPair)

  /** The state after an operation together with what the caller received;
      a failed operation may still have changed the store. */
  datatype Outcome<+T> = Outcome(store: Store, result: Result<T>)

  /** The access-token signer: the configured secret (absent or empty when
      the environment variable is unset) and `jwt.sign({userId}, secret)`. */
  datatype Signer = Signer(accessSecret: Option<string>, sign: (string, string) -> string)


  predicate SecretConfigured(signer: Signer)
  {
    signer.accessSecret.Some? && signer.accessSecret.value != ""
  }

  /** `generateAccessToken`: fails with 500 when the secret is not configured. */
  function GenerateAccessToken(signer: Signer, userId: string): (r: Result<string>)
    ensures r.Err? <==> !SecretConfigured(signer)
    ensures r.Err? ==> r.error == SECRET_MISSING
  {
    match signer.accessSecret
    case Some(secret) =>
      if secret == "" then Err(SECRET_MISSING) else Ok(signer.sign(userId, secret))
    case None => Err(SECRET_MISSING)
  }

  function UserIds(store: Store): set<string>
  {
    set e | e in store.users :: store.users[e].id
  }

  /** The store's integrity constraints: users are keyed by their own e-mail
      (the unique e-mail column), user ids are distinct, and every refresh
      token belongs to an existing user (the foreign key). */
  ghost predicate Valid(store: Store)
  {
    && (forall e :: e in store.users ==> store.users[e].email == e)
    && (forall e1, e2 :: e1 in store.users && e2 in store.users && e1 != e2 ==>
          store.users[e1].id != store.users[e2].id)
    && (forall t :: t in store.tokens ==> store.tokens[t].userId in UserIds(store))
  }

  function View(u: User): (v: UserView)
    ensures v.id == u.id && v.name == u.name && v.email == u.email
    ensures v.createdAt == u.createdAt && v.updatedAt == u.updatedAt
  {
    UserView(u.id, u.name, u.email, u.createdAt, u.updatedAt)
  }

  /** Persists a refresh token for `userId` that expires seven days after `now`. */
  function IssueRefresh(store: Store, userId: string, token: string, now: int): Store
  {
    store.(tokens := store.tokens[token := RefreshRecord(userId, now + REFRESH_TOKEN_TTL_MS, now)])
  }

  /** `registerUser`: the e-mail must be unused; the user row is written
      before the access token is signed, so a missing secret leaves the new
      user in place and no refresh token. */
  function Register(store: Store, input: RegisterInput, signer: Signer, passwordHash: string,
                    newUserId: string, newToken: string, now: int): (o: Outcome<Session>)
    requires newToken !in store.tokens
    ensures input.email in store.users ==> o == Outcome(store, Err(EMAIL_TAKEN))
    ensures o.result.Ok? ==> o.result.value.user.email == input.email
                             && o.result.value.tokens.refreshToken == newToken
  {
    if input.email in store.users then Outcome(store, Err(EMAIL_TAKEN))
    else
      var user := User(newUserId, input.name, input.email, passwordHash, now, now);
      var withUser := store.(users := store.users[input.email := user]);
      match GenerateAccessToken(signer, user.id)
      case Err(e) => Outcome(withUser, Err(e))
      case Ok(access) =>
        Outcome(IssueRefresh(withUser, user.id, newToken, now),
                Ok(Session(View(user), TokenPair(access, newToken))))
  }

  /** `loginUser`: an unknown e-mail and a wrong password are reported with
      the same error. `passwordMatches` is `bcrypt.compare`. */
  function Login(store: Store, input: LoginInput, passwordMatches: (string, string) -> bool,
                 signer: Signer, newToken: string, now: int): (o: Outcome<Session>)
    requires newToken !in store.tokens
    ensures o.result.Err? ==> o.store == store
    ensures o.result.Ok? ==> input.email in store.users
                             && o.result.value.user == View(store.users[input.email])
  {
    if input.email !in store.users then Outcome(store, Err(INVALID_CREDENTIALS))
    else
      var user := store.users[input.email];
      if !passwordMatches(input.password, user.passwordHash) then Outcome(store, Err(INVALID_CREDENTIALS))
      else
        match GenerateAccessToken(signer, user.id)
        case Err(e) => Outcome(store, Err(e))
        case Ok(access) =>
          Outcome(IssueRefresh(store, user.id, newToken, now),
                  Ok(Session(View(user), TokenPair(access, newToken))))
  }

  /** `refreshAccessToken`: single-use rotation. An unknown value fails
      without effect; an expired record (expiresAt strictly before now) is
      deleted and reported; otherwise the presented record is deleted before
      the new access token is signed and a new refresh token is stored for
      the same user. */
  function Refresh(store: Store, value: string, signer: Signer, newToken: string, now: int): (o: Outcome<TokenPair>)
    requires newToken !in store.tokens
    ensures value !in store.tokens ==> o == Outcome(store, Err(INVALID_REFRESH))
    ensures o.result.Ok? ==> o.result.value.refreshToken == newToken
    ensures value !in o.store.tokens
  {
    if value !in store.tokens then Outcome(store, Err(INVALID_REFRESH))
    else
      var record := store.tokens[value];
      var consumed := store.(tokens := store.tokens - {value});
      if record.expiresAt < now then Outcome(consumed, Err(REFRESH_EXPIRED))
      else
        match GenerateAccessToken(signer, record.userId)
        case Err(e) => Outcome(consumed, Err(e))
        case Ok(access) =>
          Outcome(IssueRefresh(consumed, record.userId, newToken, now), Ok(TokenPair(access, newToken)))
  }

  /** `logoutUser`: deletes every record with this exact value; never fails. */
  function Logout(store: Store, value: string): (s: Store)
    ensures value !in s.tokens
    ensures s.users == store.users
    ensures forall t :: t in store.tokens && t != value ==> t in s.tokens && s.tokens[t] == store.tokens[t]
    ensures forall t :: t in s.tokens ==> t in store.tokens
  {
    store.(tokens := store.tokens - {value})
  }

  // ---------------------------------------------------------------------------
  // Properties of the lifecycle

  /** What a successful register or login does to the store: exactly one new
      refresh token, owned by the session's user and expiring seven days
      from now; every other token is untouched. */
  ghost predicate AddsOneToken(before: Store, after: Store, userId: string, token: string, now: int)
  {
    && token !in before.tokens
    && token in after.tokens
    && after.tokens[token] == RefreshRecord(userId, now + REFRESH_TOKEN_TTL_MS, now)
    && after.tokens.Keys == before.tokens.Keys + {token}
    && (forall t :: t in before.tokens ==> after.tokens[t] == before.tokens[t])
  }

  lemma AddsOneTokenCount(before: Store, after: Store, userId: string, token: string, now: int)
    requires AddsOneToken(before, after, userId, token, now)
    ensures |after.tokens| == |before.tokens| + 1
  {
    assert after.tokens.Keys == before.tokens.Keys + {token};
    assert |after.tokens.Keys| == |before.tokens.Keys| + 1;
  }

  /** A successful registration creates exactly one user (the new one) and
      exactly one refresh token, owned by that user. */
  lemma RegisterSuccess(store: Store, input: RegisterInput, signer: Signer, passwordHash: string,
                        newUserId: string, newToken: string, now: int)
    requires newToken !in store.tokens
    requires Register(store, input, signer, passwordHash, newUserId, newToken, now).result.Ok?
    ensures var o := Register(store, input, signer, passwordHash, newUserId, newToken, now);
            && input.email !in store.users
            && o.store.users == store.users[input.email := User(newUserId, input.name, input.email, passwordHash, now, now)]
            && o.result.value.user.id == newUserId
            && AddsOneToken(store, o.store, newUserId, newToken, now)
  {
  }

  /** Registering an e-mail that is already taken fails with 409 and adds
      neither a user nor a token. */
  lemma RegisterDuplicate(store: Store, input: RegisterInput, signer: Signer, passwordHash: string,
                          newUserId: string, newToken: string, now: int)
    requires newToken !in store.tokens
    requires input.email in store.users
    ensures Register(store, input, signer, passwordHash, newUserId, newToken, now)
            == Outcome(store, Err(EMAIL_TAKEN))
  {
  }

  /** Without a configured secret, registration is only half applied: the
      user row stays, no refresh token is stored, and the caller sees a 500;
      registering the same e-mail again then fails with 409. */
  lemma RegisterWithoutSecret(store: Store, input: RegisterInput, signer: Signer, passwordHash: string,
                              newUserId: string, newToken: string, now: int)
    requires newToken !in store.tokens
    requires input.email !in store.users
    requires !SecretConfigured(signer)
    ensures var o := Register(store, input, signer, passwordHash, newUserId, newToken, now);
            && o.result == Err(SECRET_MISSING)
            && input.email in o.store.users
            && o.store.tokens == store.tokens
            && Register(o.store, input, signer, passwordHash, newUserId, newToken, now).result == Err(EMAIL_TAKEN)
  {
  }

  /** A successful login adds exactly one token for the user whose e-mail
      was given, and changes no user. */
  lemma LoginSuccess(store: Store, input: LoginInput, passwordMatches: (string, string) -> bool,
                     signer: Signer, newToken: string, now: int)
    requires newToken !in store.tokens
    requires Login(store, input, passwordMatches, signer, newToken, now).result.Ok?
    ensures var o := Login(store, input, passwordMatches, signer, newToken, now);
            && input.email in store.users
            && passwordMatches(input.password, store.users[input.email].passwordHash)
            && o.store.users == store.users
            && AddsOneToken(store, o.store, store.users[input.email].id, newToken, now)
  {
  }

  /** An unknown e-mail and a wrong password are indistinguishable to the
      caller: the same 401 error and an unchanged store. */
  lemma LoginFailuresIndistinguishable(store: Store, unknown: LoginInput, wrong: LoginInput,
                                       passwordMatches: (string, string) -> bool,
                                       signer: Signer, newToken: string, now: int)
    requires newToken !in store.tokens
    requires unknown.email !in store.users
    requires wrong.email in store.users && !passwordMatches(wrong.password, store.users[wrong.email].passwordHash)
    ensures Login(store, unknown, passwordMatches, signer, newToken, now) == Outcome(store, Err(INVALID_CREDENTIALS))
    ensures Login(store, wrong, passwordMatches, signer, newToken, now) == Outcome(store, Err(INVALID_CREDENTIALS))
  {
  }

  /** The strict expiry comparison: a token whose expiry is before `now` is
      deleted and rejected, one expiring exactly at `now` is still rotated. */
  lemma RefreshExpiryBoundary(store: Store, value: string, signer: Signer, newToken: string, now: int)
    requires newToken !in store.tokens
    requires value in store.tokens
    ensures var o := Refresh(store, value, signer, newToken, now);
            store.tokens[value].expiresAt < now ==>
              o == Outcome(store.(tokens := store.tokens - {value}), Err(REFRESH_EXPIRED))
    ensures store.tokens[value].expiresAt == now && SecretConfigured(signer) ==>
              Refresh(store, value, signer, newToken, now).result.Ok?
  {
  }

  /** A successful refresh swaps the presented token for exactly one new one
      owned by the same user, so the number of tokens is unchanged. */
  lemma RefreshRotates(store: Store, value: string, signer: Signer, newToken: string, now: int)
    requires newToken !in store.tokens
    requires Refresh(store, value, signer, newToken, now).result.Ok?
    ensures var o := Refresh(store, value, signer, newToken, now);
            && value in store.tokens
            && now <= store.tokens[value].expiresAt
            && o.store.users == store.users
            && AddsOneToken(store.(tokens := store.tokens - {value}), o.store, store.tokens[value].userId, newToken, now)
            && |o.store.tokens| == |store.tokens|
  {
    var o := Refresh(store, value, signer, newToken, now);
    var consumed := store.(tokens := store.tokens - {value});
    assert |consumed.tokens| == |store.tokens| - 1;
    AddsOneTokenCount(consumed, o.store, store.tokens[value].userId, newToken, now);
  }

  /** A refresh token is single use: presenting it again after a successful
      rotation fails with "Invalid refresh token" and changes nothing. */
  lemma RefreshReplayFails(store: Store, value: string, signer: Signer, newToken: string, now: int,
                           replayToken: string, later: int)
    requires newToken !in store.tokens
    requires Refresh(store, value, signer, newToken, now).result.Ok?
    requires replayToken !in Refresh(store, value, signer, newToken, now).store.tokens
    ensures var s := Refresh(store, value, signer, newToken, now).store;
            Refresh(s, value, signer, replayToken, later) == Outcome(s, Err(INVALID_REFRESH))
  {
  }

  /** A token issued at registration can be rotated exactly while the clock
      has not passed its seven-day expiry. */
  lemma RegisteredTokenRefreshable(store: Store, input: RegisterInput, signer: Signer, passwordHash: string,
                                   newUserId: string, newToken: string, now: int, nextToken: string, later: int)
    requires newToken !in store.tokens
    requires Register(store, input, signer, passwordHash, newUserId, newToken, now).result.Ok?
    requires nextToken !in Register(store, input, signer, passwordHash, newUserId, newToken, now).store.tokens
    ensures var s := Register(store, input, signer, passwordHash, newUserId, newToken, now).store;
            Refresh(s, newToken, signer, nextToken, later).result.Ok? <==> later <= now + REFRESH_TOKEN_TTL_MS
  {
  }

  /** Logout is idempotent. */
  lemma LogoutIdempotent(store: Store, value: string)
    ensures Logout(Logout(store, value), value) == Logout(store, value)
  {
  }

  // ---------------------------------------------------------------------------
  // Every transition keeps the store's integrity constraints.

  lemma RegisterKeepsValid(store: Store, input: RegisterInput, signer: Signer, passwordHash: string,
                           newUserId: string, newToken: string, now: int)
    requires Valid(store)
    requires newToken !in store.tokens
    requires newUserId !in UserIds(store)
    ensures Valid(Register(store, input, signer, passwordHash, newUserId, newToken, now).store)
  {
    if input.email !in store.users {
      var user := User(newUserId, input.name, input.email, passwordHash, now, now);
      AddUserKeepsValid(store, user);
      var withUser := store.(users := store.users[input.email := user]);
      assert newUserId in UserIds(withUser);
      IssueRefreshKeepsValid(withUser, newUserId, newToken, now);
    }
  }

  /** A new user under its own, unused e-mail and with a fresh id keeps the
      store valid and adds exactly its id. */
  lemma AddUserKeepsValid(store: Store, user: User)
    requires Valid(store)
    requires user.email !in store.users && user.id !in UserIds(store)
    ensures var next := store.(users := store.users[user.email := user]);
            Valid(next) && UserIds(next) == UserIds(store) + {user.id}
  {
    var next := store.(users := store.users[user.email := user]);
    forall id | id in UserIds(next) ensures id in UserIds(store) + {user.id} {
      var e :| e in next.users && next.users[e].id == id;
      if e != user.email { assert id in UserIds(store); }
    }
    forall id | id in UserIds(store) ensures id in UserIds(next) {
      var e :| e in store.users && store.users[e].id == id;
      assert next.users[e].id == id;
    }
    assert next.users[user.email].id == user.id;
  }

  /** A refresh token for a known user keeps the store valid. */
  lemma IssueRefreshKeepsValid(store: Store, userId: string, token: string, now: int)
    requires Valid(store) && userId in UserIds(store)
    ensures Valid(IssueRefresh(store, userId, token, now))
  {
  }

  lemma LoginKeepsValid(store: Store, input: LoginInput, passwordMatches: (string, string) -> bool,
                        signer: Signer, newToken: string, now: int)
    requires Valid(store)
    requires newToken !in store.tokens
    ensures Valid(Login(store, input, passwordMatches, signer, newToken, now).store)
  {
    if input.email in store.users {
      assert store.users[input.email].id in UserIds(store);
    }
  }

  lemma RefreshKeepsValid(store: Store, value: string, signer: Signer, newToken: string, now: int)
    requires Valid(store)
    requires newToken !in store.tokens
    ensures Valid(Refresh(store, value, signer, newToken, now).store)
  {
    var consumed := store.(tokens := store.tokens - {value});
    assert UserIds(consumed) == UserIds(store);
  }

  lemma LogoutKeepsValid(store: Store, value: string)
    requires Valid(store)
    ensures Valid(Logout(store, value))
  {
    assert UserIds(Logout(store, value)) == UserIds(store);
  }
}
