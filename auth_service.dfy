/**
 * Sign-up, login, token refresh, logout and the password flows. The password
 * encoder, the JWT provider and the token generators are outside the model:
 * the encoded password, the password check, the token strings and the
 * refresh-token lifetime come in as parameters, and the clock as the time
 * passed in (in seconds). Issuing tokens removes every refresh token of the
 * user before saving the new one, so a user holds at most one.
 */
module AuthService {
  import opened Common
  import opened Entities
  import opened PasswordResetTokens
  import opened StoreState
  import LoginAttemptService

  /** What a successful sign-up, login or refresh answers with. */
  datatype AuthResponse = AuthResponse(accessToken: string, refreshToken: string, user: User)

  /** The tokens of the user's refresh-token rows. */
  function TokensOfUser(tokens: map<string, RefreshToken>, user: UserId): (r: set<string>)
    ensures forall s :: s in r <==> s in tokens && tokens[s].user == user
  {
    set s | s in tokens && tokens[s].user == user
  }

  /** deleteByUser: every refresh token of the user goes, the others stay. */
  function DeleteByUser(tokens: map<string, RefreshToken>, user: UserId): (r: map<string, RefreshToken>)
    ensures TokensOfUser(r, user) == {}
    ensures forall s :: s in r <==> s in tokens && tokens[s].user != user
    ensures forall s :: s in r ==> r[s] == tokens[s]
  {
    Without(tokens, TokensOfUser(tokens, user))
  }

  /** The refresh-token table after tokens were issued to user: the user's old tokens gone, the new one saved. */
  function Issued(tokens: map<string, RefreshToken>, user: UserId, refresh: string, now: Time, validityMillis: nat)
    : (r: map<string, RefreshToken>)
    ensures TokensOfUser(r, user) == {refresh}
    ensures r[refresh] == RefreshToken(user, now + validityMillis / 1000)
    ensures forall s :: s in r && s != refresh ==> s in tokens && tokens[s].user != user && r[s] == tokens[s]
  {
    DeleteByUser(tokens, user)[refresh := RefreshToken(user, now + validityMillis / 1000)]
  }

  /**
   * createAuthResponse: the access token and the new refresh token are
   * returned with the user, and the refresh-token table is replaced by Issued.
   */
  method IssueTokens(db: Store, user: User, access: string, refresh: string, now: Time, validityMillis: nat)
    returns (resp: AuthResponse)
    requires db.Valid() && user.id in db.users
    modifies db`refreshTokens
    ensures db.Valid()
    ensures db.refreshTokens == Issued(old(db.refreshTokens), user.id, refresh, now, validityMillis)
    ensures resp == AuthResponse(access, refresh, user)
  {
    db.refreshTokens := DeleteByUser(db.refreshTokens, user.id);
    db.refreshTokens := db.refreshTokens[refresh := RefreshToken(user.id, now + validityMillis / 1000)];
    resp := AuthResponse(access, refresh, user);
  }

  /** Whatever the table held, after an issue the user holds exactly one refresh token, and it is valid until its expiry. */
  lemma OneTokenPerUser(tokens: map<string, RefreshToken>, user: UserId, refresh: string, now: Time, validityMillis: nat,
                        later: Time)
    ensures var r := Issued(tokens, user, refresh, now, validityMillis);
      |TokensOfUser(r, user)| == 1 && (r[refresh].IsExpired(later) <==> later > now + validityMillis / 1000)
  {
  }

  /**
   * signUp: a taken e-mail is refused with DUPLICATE_EMAIL before anything is
   * written; otherwise the user is saved under a fresh id with the encoded
   * password, and tokens are issued.
   */
  method SignUp(db: Store, email: string, name: string, encodedPassword: string,
                access: string, refresh: string, now: Time, validityMillis: nat) returns (r: Result<AuthResponse>)
    requires db.Valid()
    modifies db`users, db`nextId, db`refreshTokens
    ensures db.Valid()
    ensures UserByEmail(old(db.users), email).Some? ==> (
      r == Err(DuplicateEmail) && db.users == old(db.users) && db.refreshTokens == old(db.refreshTokens))
    ensures UserByEmail(old(db.users), email).None? ==> (
      r.Ok? && r.value.user == User(r.value.user.id, email, name, encodedPassword) && r.value.user.id !in old(db.users)
      && db.users == old(db.users)[r.value.user.id := r.value.user]
      && db.refreshTokens == Issued(old(db.refreshTokens), r.value.user.id, refresh, now, validityMillis))
  {
    if UserByEmail(db.users, email).Some? { return Err(DuplicateEmail); }
    var id := db.NewId();
    var user := User(id, email, name, encodedPassword);
    db.users := db.users[id := user];
    var resp := IssueTokens(db, user, access, refresh, now, validityMillis);
    r := Ok(resp);
  }

  /**
   * The checks of login, in source order: a blocked address (ACCOUNT_LOCKED),
   * then an unknown address or a wrong password, both INVALID_CREDENTIALS.
   */
  function LoginCheck(attempts: map<string, LoginAttempts.LoginAttempt>, users: map<UserId, User>, email: string,
                      passwordOk: bool, now: Time): (r: Result<UserId>)
    requires UniqueEmails(users)
    ensures LoginAttemptService.IsBlocked(attempts, email, now) ==> r == Err(AccountLocked)
    ensures r.Err? ==> r.error in {AccountLocked, InvalidCredentials}
    ensures r.Ok? <==> (
      !LoginAttemptService.IsBlocked(attempts, email, now) && UserByEmail(users, email).Some? && passwordOk)
    ensures r.Ok? ==> r.value in users && users[r.value].email == email
  {
    if LoginAttemptService.IsBlocked(attempts, email, now) then Err(AccountLocked)
    else match UserByEmail(users, email)
      case None => Err(InvalidCredentials)
      case Some(id) => if !passwordOk then Err(InvalidCredentials) else Ok(id)
  }

  /**
   * login: the password check is matches(raw, stored). Failures and successes
   * are not recorded: the login-attempt table is left as it was.
   */
  method Login(db: Store, email: string, password: string, matches: (string, string) -> bool,
               access: string, refresh: string, now: Time, validityMillis: nat) returns (r: Result<AuthResponse>)
    requires db.Valid()
    modifies db`refreshTokens
    ensures db.Valid()
    ensures db.loginAttempts == old(db.loginAttempts)
    ensures var id := UserByEmail(db.users, email);
      var c := LoginCheck(db.loginAttempts, db.users, email, id.Some? && matches(password, db.users[id.value].password), now);
      (c.Err? ==> r == Err(c.error) && db.refreshTokens == old(db.refreshTokens))
      && (c.Ok? ==> r == Ok(AuthResponse(access, refresh, db.users[c.value]))
                    && db.refreshTokens == Issued(old(db.refreshTokens), c.value, refresh, now, validityMillis))
  {
    var id := UserByEmail(db.users, email);
    var c := LoginCheck(db.loginAttempts, db.users, email, id.Some? && matches(password, db.users[id.value].password), now);
    if c.Err? { return Err(c.error); }
    var resp := IssueTokens(db, db.users[c.value], access, refresh, now, validityMillis);
    r := Ok(resp);
  }

  /**
   * Without a lock record a wrong password answers INVALID_CREDENTIALS, never
   * ACCOUNT_LOCKED; since login leaves the record table as it is, it does so
   * however often it is repeated.
   */
  lemma WrongPasswordNeverLocks(attempts: map<string, LoginAttempts.LoginAttempt>, users: map<UserId, User>, email: string,
                        now: Time)
    requires UniqueEmails(users) && email !in attempts
    ensures LoginCheck(attempts, users, email, false, now) == Err(InvalidCredentials)
  {
  }

  /**
   * refreshToken as written: the expired token is deleted and then
   * EXPIRED_TOKEN is thrown, which rolls the transaction back, so the
   * expired row stays. A valid token is replaced by a new one.
   */
  method RefreshAsWritten(db: Store, token: string, access: string, refresh: string, now: Time, validityMillis: nat)
    returns (r: Result<AuthResponse>)
    requires db.Valid()
    modifies db`refreshTokens
    ensures db.Valid()
    ensures token !in old(db.refreshTokens) ==> r == Err(InvalidToken) && db.refreshTokens == old(db.refreshTokens)
    ensures token in old(db.refreshTokens) && old(db.refreshTokens)[token].IsExpired(now) ==>
      r == Err(ExpiredToken) && db.refreshTokens == old(db.refreshTokens)
    ensures token in old(db.refreshTokens) && !old(db.refreshTokens)[token].IsExpired(now) ==> (
      var u := old(db.refreshTokens)[token].user;
      r == Ok(AuthResponse(access, refresh, db.users[u]))
      && db.refreshTokens == Issued(Without(old(db.refreshTokens), {token}), u, refresh, now, validityMillis))
  {
    if token !in db.refreshTokens { return Err(InvalidToken); }
    var found := db.refreshTokens[token];
    if found.IsExpired(now) {
      var before := db.refreshTokens;
      db.refreshTokens := Without(db.refreshTokens, {token});
      db.refreshTokens := before;
      return Err(ExpiredToken);
    }
    db.refreshTokens := Without(db.refreshTokens, {token});
    var resp := IssueTokens(db, db.users[found.user], access, refresh, now, validityMillis);
    r := Ok(resp);
  }

  /**
   * refreshToken as intended: an expired token is removed for good and
   * EXPIRED_TOKEN is answered; the other cases are as written.
   */
  method Refresh(db: Store, token: string, access: string, refresh: string, now: Time, validityMillis: nat)
    returns (r: Result<AuthResponse>)
    requires db.Valid()
    modifies db`refreshTokens
    ensures db.Valid()
    ensures token !in old(db.refreshTokens) ==> r == Err(InvalidToken) && db.refreshTokens == old(db.refreshTokens)
    ensures token in old(db.refreshTokens) && old(db.refreshTokens)[token].IsExpired(now) ==>
      r == Err(ExpiredToken) && db.refreshTokens == Without(old(db.refreshTokens), {token})
    ensures token in old(db.refreshTokens) && !old(db.refreshTokens)[token].IsExpired(now) ==> (
      var u := old(db.refreshTokens)[token].user;
      r == Ok(AuthResponse(access, refresh, db.users[u]))
      && db.refreshTokens == Issued(Without(old(db.refreshTokens), {token}), u, refresh, now, validityMillis))
  {
    if token !in db.refreshTokens { return Err(InvalidToken); }
    var found := db.refreshTokens[token];
    db.refreshTokens := Without(db.refreshTokens, {token});
    if found.IsExpired(now) {
      return Err(ExpiredToken);
    }
    var resp := IssueTokens(db, db.users[found.user], access, refresh, now, validityMillis);
    r := Ok(resp);
  }

  /** The checks of refreshToken: the token exists (INVALID_TOKEN) and has not expired (EXPIRED_TOKEN). */
  function RefreshCheck(tokens: map<string, RefreshToken>, token: string, now: Time): (r: Option<ErrorCode>)
    ensures token !in tokens ==> r == Some(InvalidToken)
    ensures token in tokens && tokens[token].IsExpired(now) ==> r == Some(ExpiredToken)
    ensures r.None? <==> token in tokens && !tokens[token].IsExpired(now)
  {
    if token !in tokens then Some(InvalidToken)
    else if tokens[token].IsExpired(now) then Some(ExpiredToken)
    else None
  }

  /**
   * The discrepancy: as written the expired token stays in the table, so
   * every later refresh with it answers EXPIRED_TOKEN again; after the
   * corrected refresh it is gone, and a retry answers INVALID_TOKEN.
   */
  lemma ExpiredTokenRetries(tokens: map<string, RefreshToken>, token: string, now: Time, later: Time)
    requires token in tokens && tokens[token].IsExpired(now) && now <= later
    ensures RefreshCheck(tokens, token, later) == Some(ExpiredToken)
    ensures RefreshCheck(Without(tokens, {token}), token, later) == Some(InvalidToken)
  {
  }

  /** logout: every refresh token of the user goes; an unknown user is USER_NOT_FOUND. */
  method Logout(db: Store, userId: UserId) returns (r: Option<ErrorCode>)
    requires db.Valid()
    modifies db`refreshTokens
    ensures db.Valid()
    ensures userId !in db.users ==> r == Some(UserNotFound) && db.refreshTokens == old(db.refreshTokens)
    ensures userId in db.users ==> r.None? && db.refreshTokens == DeleteByUser(old(db.refreshTokens), userId)
  {
    if userId !in db.users { return Some(UserNotFound); }
    db.refreshTokens := DeleteByUser(db.refreshTokens, userId);
    r := None;
  }

  /** changePassword: the current password must match the stored one; then only the stored password changes. */
  method ChangePassword(db: Store, userId: UserId, current: string, encodedNew: string, matches: (string, string) -> bool)
    returns (r: Option<ErrorCode>)
    requires db.Valid()
    modifies db`users
    ensures db.Valid()
    ensures userId !in old(db.users) ==> r == Some(UserNotFound) && db.users == old(db.users)
    ensures userId in old(db.users) && !matches(current, old(db.users)[userId].password) ==>
      r == Some(InvalidPassword) && db.users == old(db.users)
    ensures userId in old(db.users) && matches(current, old(db.users)[userId].password) ==>
      r.None? && db.users == old(db.users)[userId := old(db.users)[userId].(password := encodedNew)]
  {
    if userId !in db.users { return Some(UserNotFound); }
    var user := db.users[userId];
    if !matches(current, user.password) { return Some(InvalidPassword); }
    db.users := db.users[userId := user.(password := encodedNew)];
    r := None;
  }

  /** The lifetime of a reset token, in minutes. */
  const RESET_MINUTES: int := 30

  /**
   * requestPasswordReset: for a known address a new token valid for 30
   * minutes is saved and returned; earlier tokens of the user stay valid.
   */
  method RequestPasswordReset(db: Store, email: string, tokenStr: string, now: Time) returns (r: Result<string>)
    requires db.Valid()
    modifies db`resetTokens
    ensures db.Valid()
    ensures UserByEmail(db.users, email).None? ==> r == Err(UserNotFound) && db.resetTokens == old(db.resetTokens)
    ensures UserByEmail(db.users, email).Some? ==> (
      r == Ok(tokenStr)
      && db.resetTokens == old(db.resetTokens)[tokenStr := Create(tokenStr, UserByEmail(db.users, email).value, RESET_MINUTES, now)])
  {
    var id := UserByEmail(db.users, email);
    if id.None? { return Err(UserNotFound); }
    var token := Create(tokenStr, id.value, RESET_MINUTES, now);
    db.resetTokens := db.resetTokens[tokenStr := token];
    r := Ok(tokenStr);
  }

  /** The checks of confirmPasswordReset: the token exists (INVALID_TOKEN) and is valid now (TOKEN_EXPIRED). */
  function ConfirmCheck(resetTokens: map<string, PasswordResetToken>, token: string, now: Time): (r: Option<ErrorCode>)
    ensures r.None? <==> token in resetTokens && resetTokens[token].IsValid(now)
    ensures token !in resetTokens ==> r == Some(InvalidToken)
    ensures token in resetTokens && !resetTokens[token].IsValid(now) ==> r == Some(TokenExpired)
  {
    if token !in resetTokens then Some(InvalidToken)
    else if !resetTokens[token].IsValid(now) then Some(TokenExpired)
    else None
  }

  /**
   * confirmPasswordReset: the token's user gets the new encoded password, the
   * token is marked used, and the user's login attempts are reset.
   */
  method ConfirmPasswordReset(db: Store, token: string, encodedNew: string, now: Time) returns (r: Option<ErrorCode>)
    requires db.Valid()
    modifies db`users, db`resetTokens, db`loginAttempts
    ensures db.Valid()
    ensures r == ConfirmCheck(old(db.resetTokens), token, now)
    ensures r.Some? ==> db.users == old(db.users) && db.resetTokens == old(db.resetTokens)
                        && db.loginAttempts == old(db.loginAttempts)
    ensures r.None? ==> (
      var u := old(db.resetTokens)[token].user;
      var email := old(db.users)[u].email;
      db.users == old(db.users)[u := old(db.users)[u].(password := encodedNew)]
      && db.resetTokens == old(db.resetTokens)[token := old(db.resetTokens)[token].MarkAsUsed()]
      && (email in old(db.loginAttempts) ==>
            db.loginAttempts == old(db.loginAttempts)[email := old(db.loginAttempts)[email].Reset()])
      && (email !in old(db.loginAttempts) ==> db.loginAttempts == old(db.loginAttempts)))
  {
    r := ConfirmCheck(db.resetTokens, token, now);
    if r.Some? { return; }
    var email := db.users[db.resetTokens[token].user].email;
    db.SpendResetToken(token, encodedNew);
    LoginAttemptService.LoginSucceeded(db, email);
  }

  /** A confirmed token cannot be confirmed again: the second try answers TOKEN_EXPIRED. */
  lemma SecondConfirmFails(resetTokens: map<string, PasswordResetToken>, token: string, now: Time, later: Time)
    requires ConfirmCheck(resetTokens, token, now).None?
    ensures ConfirmCheck(resetTokens[token := resetTokens[token].MarkAsUsed()], token, later) == Some(TokenExpired)
  {
  }

  /** A new reset request leaves every earlier token of the same user as valid as it was. */
  lemma OlderResetTokensStay(resetTokens: map<string, PasswordResetToken>, newer: PasswordResetToken, s: string, now: Time)
    requires newer.token !in resetTokens && s in resetTokens
    ensures ConfirmCheck(resetTokens[newer.token := newer], s, now) == ConfirmCheck(resetTokens, s, now)
  {
  }
}
