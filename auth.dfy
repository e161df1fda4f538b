/**
 * The session side of the Go server: reading the session cookie, the
 * middleware and `/api/me` decision from a session lookup, the login and
 * logout handlers, the cookie attributes, and the session token as the
 * Base16 encoding (section 8 of RFC 4648, lowercase alphabet) of 32 random
 * bytes. Cookie parsing, database rows, bcrypt's verdict, the random bytes,
 * the environment and the clock are inputs.
 */
module Auth {
  import opened Text
  import opened Types
  import opened Responses

  type Byte = b: int | 0 <= b < 256

  const SessionCookieName: string := "session_token"
  /** `sessionMaxAgeSecond`: thirty days. */
  const SessionMaxAge: int := 60 * 60 * 24 * 30

  const Unauthorized: string := "unauthorized"
  const CredentialsRequired: string := "username and password are required"
  const InvalidCredentials: string := "invalid username or password"
  const SessionCreateFailed: string := "failed to create session"
  const SessionDeleteFailed: string := "failed to delete session"

  /** `lowercase hex`: one of the sixteen characters `hex.EncodeToString` writes. */
  predicate IsLowerHex(c: char)
  {
    ('0' <= c <= '9') || ('a' <= c <= 'f')
  }

  /** `hex.EncodeToString`: two lowercase digits per byte, high nibble first. */
  function HexEncode(bs: seq<Byte>): (s: string)
    ensures |s| == 2 * |bs|
    ensures forall i :: 0 <= i < |s| ==> IsLowerHex(s[i])
  {
    if bs == [] then [] else [HexDigit(bs[0] / 16), HexDigit(bs[0] % 16)] + HexEncode(bs[1..])
  }

  /** `hex.DecodeString`: an even number of hex digits of either case, two per byte. */
  function HexDecode(s: string): (r: Option<seq<Byte>>)
    ensures r.Some? ==> 2 * |r.value| == |s|
  {
    if s == [] then Some([])
    else if |s| == 1 || !IsHexDigit(s[0]) || !IsHexDigit(s[1]) then None
    else match HexDecode(s[2..])
         case None => None
         case Some(rest) => Some([HexValue(s[0]) * 16 + HexValue(s[1]) as Byte] + rest)
  }

  /** Base16 round-trips: decoding the encoding gives the bytes back. */
  lemma {:induction false} HexRoundTrip(bs: seq<Byte>)
    ensures HexDecode(HexEncode(bs)) == Some(bs)
  {
    if bs != [] {
      var s := HexEncode(bs);
      assert s[2..] == HexEncode(bs[1..]);
      HexRoundTrip(bs[1..]);
      assert HexValue(s[0]) * 16 + HexValue(s[1]) == bs[0];
      assert [bs[0]] + bs[1..] == bs;
    }
  }

  /** How `rand.Read` filled the 32-byte buffer. */
  datatype RandomRead = ReadFailed | ReadBytes(bytes: seq<Byte>)

  /** `generateSessionToken`: 64 lowercase hex characters that decode to the random bytes. */
  function GenerateSessionToken(read: RandomRead): (token: Option<string>)
    requires read.ReadBytes? ==> |read.bytes| == 32
    ensures token.Some? <==> read.ReadBytes?
    ensures token.Some? ==> |token.value| == 64 && (forall i :: 0 <= i < 64 ==> IsLowerHex(token.value[i]))
    ensures token.Some? ==> HexDecode(token.value) == Some(read.bytes)
  {
    match read
    case ReadFailed => None
    case ReadBytes(bytes) =>
      HexRoundTrip(bytes);
      Some(HexEncode(bytes))
  }

  /** Distinct random buffers give distinct tokens. */
  lemma TokensDistinct(a: seq<Byte>, b: seq<Byte>)
    requires |a| == 32 && |b| == 32 && a != b
    ensures GenerateSessionToken(ReadBytes(a)) != GenerateSessionToken(ReadBytes(b))
  {
    HexRoundTrip(a);
    HexRoundTrip(b);
  }

  /** What `r.Cookie("session_token")` returned. */
  datatype CookieLookup = NoCookie | CookieReadFailed | CookieFound(value: string)

  /** `readSessionToken`'s result: a token, `errMissingSessionToken`, or another cookie error. */
  datatype TokenRead = Token(token: string) | MissingToken | CookieError

  function ReadSessionToken(c: CookieLookup): (r: TokenRead)
    ensures r.Token? <==> c.CookieFound? && Trim(Go, c.value) != ""
    ensures r.Token? ==> r.token == Trim(Go, c.value)
    ensures r == CookieError <==> c == CookieReadFailed
  {
    match c
    case NoCookie => MissingToken
    case CookieReadFailed => CookieError
    case CookieFound(value) =>
      var token := Trim(Go, value);
      if token == "" then MissingToken else Token(token)
  }

  /**
   * A missing cookie and a blank one are the same error, and a token that
   * is read back has no surrounding whitespace and is idempotent under
   * trimming.
   */
  lemma ReadSessionTokenSpec(c: CookieLookup)
    ensures ReadSessionToken(c) == MissingToken <==> c == NoCookie || (c.CookieFound? && IsBlank(Go, c.value))
    ensures ReadSessionToken(c).Token? ==> var t := ReadSessionToken(c).token;
              !IsSpace(Go, t[0]) && !IsSpace(Go, t[|t| - 1]) && Trim(Go, t) == t
  {
    if c.CookieFound? {
      var t := Trim(Go, c.value);
      TrimEmptyIffBlank(Go, c.value);
      if t != "" {
        TrimIsInfix(Go, c.value);
        TrimIdempotent(Go, c.value);
        assert ReadSessionToken(c) == Token(t);
      } else {
        assert ReadSessionToken(c) == MissingToken;
      }
    }
  }

  /** What a session lookup by token returned: a row, `sql.ErrNoRows`, or another error. */
  datatype Lookup<T> = Found(value: T) | NoRows | LookupFailed

  /** A gate's verdict: refuse with a status and message, or let the request through with a value. */
  datatype Decision<T> = Refuse(status: int, message: string) | Admit(value: T)

  /**
   * `authMiddleware`, given the cookie and what `findActiveSessionUserID`
   * returns for the token read from it. `Admit(id)` means the next handler
   * runs with `id` in the request context.
   */
  function AuthMiddleware(c: CookieLookup, session: Lookup<string>): (d: Decision<string>)
    ensures d.Admit? <==> ReadSessionToken(c).Token? && session.Found?
    ensures d.Admit? ==> d.value == session.value
    ensures d.Refuse? ==> d == (if ReadSessionToken(c).Token? && session.LookupFailed?
                                then Refuse(StatusInternalServerError, InternalError)
                                else Refuse(StatusUnauthorized, Unauthorized))
  {
    if !ReadSessionToken(c).Token? then Refuse(StatusUnauthorized, Unauthorized)
    else
      match session
      case Found(userId) => Admit(userId)
      case NoRows => Refuse(StatusUnauthorized, Unauthorized)
      case LookupFailed => Refuse(StatusInternalServerError, InternalError)
  }

  /** `meHandler`, given the cookie and what `findUserBySessionToken` returns. */
  function MeHandler(c: CookieLookup, session: Lookup<User>): (r: Reply<User>)
    ensures r.JsonReply? <==> ReadSessionToken(c).Token? && session.Found?
    ensures r.JsonReply? ==> r == JsonReply(StatusOK, session.value)
    ensures !r.JsonReply? ==> r == (if ReadSessionToken(c).Token? && session.LookupFailed?
                                    then ErrorReply(StatusInternalServerError, InternalError)
                                    else ErrorReply(StatusUnauthorized, Unauthorized))
  {
    if !ReadSessionToken(c).Token? then ErrorReply(StatusUnauthorized, Unauthorized)
    else
      match session
      case Found(u) => JsonReply(StatusOK, u)
      case NoRows => ErrorReply(StatusUnauthorized, Unauthorized)
      case LookupFailed => ErrorReply(StatusInternalServerError, InternalError)
  }

  /** `/api/me` refuses exactly when the middleware would, with the same status and message. */
  lemma MeAgreesWithMiddleware(c: CookieLookup, a: Lookup<string>, b: Lookup<User>)
    requires a.Found? == b.Found? && a.NoRows? == b.NoRows?
    ensures AuthMiddleware(c, a).Refuse? <==> MeHandler(c, b).ErrorReply?
    ensures AuthMiddleware(c, a).Refuse? ==>
              MeHandler(c, b) == ErrorReply(AuthMiddleware(c, a).status, AuthMiddleware(c, a).message)
  {
  }

  /** The deployment settings read from the environment. */
  datatype Env = Env(appEnv: string, corsOrigin: string)

  datatype SameSite = SameSiteNoneMode | SameSiteStrictMode

  /** The `http.Cookie` fields the server sets; `expires` is in Unix seconds. */
  datatype Cookie = Cookie(name: string, value: string, path: string, httpOnly: bool, secure: bool,
                           sameSite: SameSite, maxAge: int, expires: int)

  predicate IsProduction(env: Env)
  {
    env.appEnv == "production"
  }

  predicate IsCrossOrigin(env: Env)
  {
    env.corsOrigin != ""
  }

  function CookieSameSite(env: Env): SameSite
  {
    if IsCrossOrigin(env) then SameSiteNoneMode else SameSiteStrictMode
  }

  /** `setSessionCookie`, issued at Unix time `now`. */
  function SessionCookie(env: Env, token: string, now: int): Cookie
  {
    Cookie(SessionCookieName, token, "/", true, IsProduction(env) || IsCrossOrigin(env), CookieSameSite(env),
           SessionMaxAge, now + SessionMaxAge)
  }

  /** `clearSessionCookie`. */
  function ClearCookie(env: Env): Cookie
  {
    Cookie(SessionCookieName, "", "/", true, IsProduction(env) || IsCrossOrigin(env), CookieSameSite(env), -1, 0)
  }

  /**
   * The `Max-Age` attribute `net/http` writes for a cookie's `MaxAge`: the
   * value when positive, `0` when negative, none when zero.
   */
  function MaxAgeAttribute(maxAge: int): Option<int>
  {
    if maxAge > 0 then Some(maxAge) else if maxAge < 0 then Some(0) else None
  }

  /**
   * When a user agent following section 5.2.2 of RFC 6265 expires a cookie
   * received at `now`: a `Max-Age` of zero or less means the earliest
   * representable time (taken as 0), otherwise `now` plus the delta.
   */
  function ExpiryOf(c: Cookie, now: int): Option<int>
  {
    match MaxAgeAttribute(c.maxAge)
    case None => None
    case Some(delta) => if delta <= 0 then Some(0) else Some(now + delta)
  }

  /**
   * The cookie policy: SameSite=None exactly when cross-origin, Secure
   * exactly in production or cross-origin (so SameSite=None always comes
   * with Secure), both cookies HttpOnly on path `/`; the session cookie
   * lives thirty days and its Expires agrees with its Max-Age, the clearing
   * cookie is empty and expires at once.
   */
  lemma CookiePolicy(env: Env, token: string, now: int)
    ensures var s := SessionCookie(env, token, now);
            var k := ClearCookie(env);
            && (s.sameSite == SameSiteNoneMode <==> env.corsOrigin != "")
            && (s.secure <==> env.appEnv == "production" || env.corsOrigin != "")
            && (s.sameSite == SameSiteNoneMode ==> s.secure)
            && s.name == k.name == "session_token" && s.path == k.path == "/" && s.httpOnly && k.httpOnly
            && s.sameSite == k.sameSite && s.secure == k.secure
            && s.value == token && s.maxAge == 2592000 && MaxAgeAttribute(s.maxAge) == Some(2592000)
            && ExpiryOf(s, now) == Some(s.expires)
            && k.value == "" && k.maxAge == -1 && MaxAgeAttribute(k.maxAge) == Some(0)
            && ExpiryOf(k, now) == Some(0) && k.expires == 0
  {
  }

  /** The body `loginHandler` decodes. */
  datatype LoginRequest = LoginRequest(username: string, password: string)
  datatype LoginBody = LoginMalformed | LoginDecoded(request: LoginRequest)

  /** A `users` row: the user and the bcrypt hash of their password. */
  datatype Account = Account(user: User, passwordHash: string)

  /** A `sessions` row. */
  datatype Session = Session(token: string, userId: string, expiresAt: int)

  /** The inputs `loginHandler` gets from the world once the request is decoded. */
  datatype LoginWorld = LoginWorld(
    account: Lookup<Account>,  // the `users` query for the trimmed username
    passwordMatches: bool,     // bcrypt's verdict on the stored hash and the password
    random: RandomRead,        // the 32 bytes `rand.Read` gave
    insertOk: bool,            // whether the `sessions` insert succeeded
    env: Env,
    now: int)

  /** What one login did: the username it looked up, the password it checked, the session it tried to insert, the cookie it set, its reply. */
  datatype LoginRun = LoginRun(queried: Option<string>, checked: Option<string>, insertAttempted: Option<Session>,
                               cookie: Option<Cookie>, reply: Reply<User>)

  /** The usernames and passwords that pass the handler's validation: the username is trimmed, the password is not. */
  predicate LoginValid(request: LoginRequest)
  {
    Trim(Go, request.username) != "" && request.password != ""
  }

  function LoginHandler(body: LoginBody, world: LoginWorld): (run: LoginRun)
    requires world.random.ReadBytes? ==> |world.random.bytes| == 32
    ensures run.queried.Some? <==> body.LoginDecoded? && LoginValid(body.request)
    ensures run.queried.Some? ==> run.queried.value == Trim(Go, body.request.username)
    ensures run.checked.Some? <==> run.queried.Some? && world.account.Found?
    ensures run.checked.Some? ==> run.checked.value == body.request.password
    ensures run.insertAttempted.Some? <==> run.checked.Some? && world.passwordMatches && world.random.ReadBytes?
    ensures run.cookie.Some? <==> run.reply.JsonReply?
    ensures body.LoginMalformed? ==> run.reply == ErrorReply(StatusBadRequest, InvalidBody)
    ensures body.LoginDecoded? && !LoginValid(body.request) ==> run.reply == ErrorReply(StatusBadRequest, CredentialsRequired)
    ensures run.queried.Some? && (world.account.NoRows? || (world.account.Found? && !world.passwordMatches)) ==>
              run.reply == ErrorReply(StatusUnauthorized, InvalidCredentials)
    ensures run.queried.Some? && world.account.LookupFailed? ==> run.reply == ErrorReply(StatusInternalServerError, InternalError)
    ensures run.checked.Some? && world.passwordMatches && !(world.random.ReadBytes? && world.insertOk) ==>
              run.reply == ErrorReply(StatusInternalServerError, SessionCreateFailed)
    ensures run.reply.JsonReply? <==> run.insertAttempted.Some? && world.insertOk
    ensures run.insertAttempted.Some? ==>
              var token := GenerateSessionToken(world.random).value;
              && run.insertAttempted.value == Session(token, world.account.value.user.id, world.now + SessionMaxAge)
              && (world.insertOk ==> run.cookie == Some(SessionCookie(world.env, token, world.now))
                                     && run.reply == JsonReply(StatusOK, world.account.value.user))
  {
    match body
    case LoginMalformed => LoginRun(None, None, None, None, ErrorReply(StatusBadRequest, InvalidBody))
    case LoginDecoded(request) =>
      var username := Trim(Go, request.username);
      var password := request.password;
      if username == "" || password == "" then
        LoginRun(None, None, None, None, ErrorReply(StatusBadRequest, CredentialsRequired))
      else
        match world.account
        case NoRows => LoginRun(Some(username), None, None, None, ErrorReply(StatusUnauthorized, InvalidCredentials))
        case LookupFailed => LoginRun(Some(username), None, None, None, ErrorReply(StatusInternalServerError, InternalError))
        case Found(account) =>
          if !world.passwordMatches then
            LoginRun(Some(username), Some(password), None, None, ErrorReply(StatusUnauthorized, InvalidCredentials))
          else
            match GenerateSessionToken(world.random)
            case None =>
              LoginRun(Some(username), Some(password), None, None, ErrorReply(StatusInternalServerError, SessionCreateFailed))
            case Some(token) =>
              var session := Session(token, account.user.id, world.now + SessionMaxAge);
              if !world.insertOk then
                LoginRun(Some(username), Some(password), Some(session), None,
                         ErrorReply(StatusInternalServerError, SessionCreateFailed))
              else
                LoginRun(Some(username), Some(password), Some(session), Some(SessionCookie(world.env, token, world.now)),
                         JsonReply(StatusOK, account.user))
  }

  /**
   * An unknown username and a wrong password look the same from outside:
   * the same reply, no session insert tried and no cookie set.
   */
  lemma UnknownUserLikeWrongPassword(request: LoginRequest, account: Account, w: LoginWorld)
    requires w.random.ReadBytes? ==> |w.random.bytes| == 32
    requires LoginValid(request)
    ensures var unknown := LoginHandler(LoginDecoded(request), w.(account := NoRows));
            var wrong := LoginHandler(LoginDecoded(request), w.(account := Found(account), passwordMatches := false));
            && unknown.reply == wrong.reply == ErrorReply(StatusUnauthorized, InvalidCredentials)
            && unknown.insertAttempted == wrong.insertAttempted == None && unknown.cookie == wrong.cookie == None
  {
  }

  /**
   * Validation trims only the username: a whitespace-only username is refused
   * without a lookup, while a whitespace-only password is looked up and
   * checked as typed.
   */
  lemma PasswordNotTrimmed(username: string, password: string, w: LoginWorld)
    requires w.random.ReadBytes? ==> |w.random.bytes| == 32
    requires !IsBlank(Go, username) && password != "" && IsBlank(Go, password)
    ensures LoginHandler(LoginDecoded(LoginRequest(username, password)), w).queried == Some(Trim(Go, username))
    ensures w.account.Found? ==> LoginHandler(LoginDecoded(LoginRequest(username, password)), w).checked == Some(password)
    ensures LoginHandler(LoginDecoded(LoginRequest(password, username)), w).reply == ErrorReply(StatusBadRequest, CredentialsRequired)
  {
    TrimEmptyIffBlank(Go, username);
    TrimEmptyIffBlank(Go, password);
  }

  /** What one logout did: the session token it deleted, the cookie it set, its reply. */
  datatype LogoutRun = LogoutRun(deleted: Option<string>, cookie: Option<Cookie>, reply: Reply<User>)

  /** `logoutHandler`, given the cookie, whether the `DELETE` succeeded, and the environment. */
  function LogoutHandler(c: CookieLookup, deleteOk: bool, env: Env): (run: LogoutRun)
    ensures run.deleted.Some? <==> ReadSessionToken(c).Token?
    ensures run.deleted.Some? ==> run.deleted.value == ReadSessionToken(c).token
    ensures run.reply == EmptyReply(StatusNoContent) <==> run.cookie == Some(ClearCookie(env))
    ensures run.reply == EmptyReply(StatusNoContent) <==> run.deleted.None? || deleteOk
    ensures run.reply != EmptyReply(StatusNoContent) ==> run.reply == ErrorReply(StatusInternalServerError, SessionDeleteFailed) && run.cookie == None
  {
    match ReadSessionToken(c)
    case Token(token) =>
      if !deleteOk then LogoutRun(Some(token), None, ErrorReply(StatusInternalServerError, SessionDeleteFailed))
      else LogoutRun(Some(token), Some(ClearCookie(env)), EmptyReply(StatusNoContent))
    case _ => LogoutRun(None, Some(ClearCookie(env)), EmptyReply(StatusNoContent))
  }

  /** Logging out without a session always succeeds and clears the cookie, whatever the database would say. */
  lemma LogoutWithoutSession(c: CookieLookup, env: Env)
    requires c == NoCookie || (c.CookieFound? && IsBlank(Go, c.value))
    ensures LogoutHandler(c, false, env) == LogoutHandler(c, true, env) == LogoutRun(None, Some(ClearCookie(env)), EmptyReply(StatusNoContent))
  {
    ReadSessionTokenSpec(c);
  }
}
