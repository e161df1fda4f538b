/**
 * The `useAuth` hook: the signed-in user, the session check run on mount,
 * the login form's fields and its submit handler, the logout handler and
 * the user-menu flag. As for the timeline, every awaited request is an
 * outcome parameter, a handler that awaits is split into the part before
 * the request (`Begin…`) and the part after it (`Finish…`), and `aborted`
 * is the state of the session check's abort signal when its `catch` and
 * `finally` blocks run.
 */
module UseAuth {
  import opened Text
  import opened Types
  import opened ClientErrors

  /** The JSON body `handleLogin` sends to `POST /api/login`. */
  datatype LoginPayload = LoginPayload(username: string, password: string)

  /** How `GET /api/me` ended: a response (its status, and the user its body names when ok) or a rejection. */
  datatype SessionOutcome = SessionResponded(status: int, me: User) | SessionThrew

  /** How `POST /api/login` ended. */
  datatype LoginOutcome =
    | LoginResponded(status: int, me: User, payload: ErrorPayload)  // `me` is read when ok, `payload` otherwise
    | LoginThrew

  /** How `POST /api/logout` ended. */
  datatype LogoutOutcome = LogoutResponded(status: int, payload: ErrorPayload) | LogoutThrew

  const ValidationError: string := "ユーザー名とパスワードを入力してください。"
  const LoginFallback: string := "ログインに失敗しました。"
  const LogoutFallback: string := "ログアウトに失敗しました。"

  /** `Response.ok`: the status is in the range 200-299. */
  predicate IsOk(status: int)
  {
    200 <= status <= 299
  }

  /** The guard at the top of `handleLogin`: the trimmed username or the trimmed password is empty. */
  predicate LoginRejectedLocally(username: string, password: string)
  {
    Trim(Js, username) == "" || Trim(Js, password) == ""
  }

  /** Login is refused before any request exactly when the username or the password is blank. */
  lemma LoginRejectedLocallyIffBlank(username: string, password: string)
    ensures LoginRejectedLocally(username, password) <==> IsBlank(Js, username) || IsBlank(Js, password)
  {
    TrimEmptyIffBlank(Js, username);
    TrimEmptyIffBlank(Js, password);
  }

  /** The guard in `handleLogout` that leads to an error. */
  predicate LogoutFailed(status: int)
  {
    !IsOk(status) && status != 204
  }

  /** The `status !== 204` half of the guard adds nothing: 204 is already ok. */
  lemma LogoutFailedIffNotOk(status: int)
    ensures LogoutFailed(status) <==> !IsOk(status)
    ensures !LogoutFailed(204)
  {
  }

  class AuthState {
    var user: Option<User>
    var isCheckingAuth: bool
    var username: string
    var password: string
    var loginError: string
    var logoutError: string
    var isSubmitting: bool
    var isLoggingOut: bool
    var isUserMenuOpen: bool

    /** The nine `useState` initial values. */
    constructor ()
      ensures user == None && isCheckingAuth && username == "" && password == ""
      ensures loginError == "" && logoutError == "" && !isSubmitting && !isLoggingOut && !isUserMenuOpen
    {
      user := None;
      isCheckingAuth := true;
      username := "";
      password := "";
      loginError := "";
      logoutError := "";
      isSubmitting := false;
      isLoggingOut := false;
      isUserMenuOpen := false;
    }

    /** The `setUsername` setter the form's input calls. */
    method SetUsername(value: string)
      modifies this
      ensures username == value
      ensures user == old(user) && password == old(password) && loginError == old(loginError)
      ensures isSubmitting == old(isSubmitting) && isUserMenuOpen == old(isUserMenuOpen)
      ensures logoutError == old(logoutError) && isLoggingOut == old(isLoggingOut) && isCheckingAuth == old(isCheckingAuth)
    {
      username := value;
    }

    /** The `setPassword` setter the form's input calls. */
    method SetPassword(value: string)
      modifies this
      ensures password == value
      ensures user == old(user) && username == old(username) && loginError == old(loginError)
      ensures isSubmitting == old(isSubmitting) && isUserMenuOpen == old(isUserMenuOpen)
      ensures logoutError == old(logoutError) && isLoggingOut == old(isLoggingOut) && isCheckingAuth == old(isCheckingAuth)
    {
      password := value;
    }

    /** The `setUser` setter the hook hands out (the timeline calls it with null on a 401). */
    method SetUser(value: Option<User>)
      modifies this
      ensures user == value
      ensures isUserMenuOpen == old(isUserMenuOpen) && isCheckingAuth == old(isCheckingAuth)
      ensures username == old(username) && password == old(password) && loginError == old(loginError)
      ensures logoutError == old(logoutError) && isSubmitting == old(isSubmitting) && isLoggingOut == old(isLoggingOut)
    {
      user := value;
    }

    /** The effect on `[user]`: a signed-out user never has the menu open. */
    method CloseMenuEffect()
      modifies this
      ensures isUserMenuOpen == (old(isUserMenuOpen) && old(user).Some?)
      ensures user == old(user) && isCheckingAuth == old(isCheckingAuth)
      ensures username == old(username) && password == old(password) && loginError == old(loginError)
      ensures logoutError == old(logoutError) && isSubmitting == old(isSubmitting) && isLoggingOut == old(isLoggingOut)
      ensures user == None ==> !isUserMenuOpen
    {
      if user == None {
        isUserMenuOpen := false;
      }
    }

    /** `toggleUserMenu`. */
    method ToggleUserMenu()
      modifies this
      ensures isUserMenuOpen == !old(isUserMenuOpen)
      ensures user == old(user) && isCheckingAuth == old(isCheckingAuth)
      ensures username == old(username) && password == old(password) && loginError == old(loginError)
      ensures logoutError == old(logoutError) && isSubmitting == old(isSubmitting) && isLoggingOut == old(isLoggingOut)
    {
      isUserMenuOpen := !isUserMenuOpen;
    }

    /**
     * `checkSession` once `fetch` has settled. Every answered request decides
     * the user; only a rejection that is not an abort clears it, and the
     * checking flag drops unless the signal was aborted.
     */
    method FinishSessionCheck(outcome: SessionOutcome, aborted: bool)
      modifies this
      ensures user == (match outcome
                       case SessionResponded(status, me) => if IsOk(status) then Some(me) else None
                       case SessionThrew => if aborted then old(user) else None)
      ensures isCheckingAuth == (if aborted then old(isCheckingAuth) else false)
      ensures username == old(username) && password == old(password) && loginError == old(loginError)
      ensures logoutError == old(logoutError) && isSubmitting == old(isSubmitting)
      ensures isLoggingOut == old(isLoggingOut) && isUserMenuOpen == old(isUserMenuOpen)
    {
      match outcome {
        case SessionResponded(status, me) =>
          if IsOk(status) {
            user := Some(me);
          } else {
            user := None;
          }
        case SessionThrew =>
          if !aborted {
            user := None;
          }
      }
      if !aborted {
        isCheckingAuth := false;
      }
    }

    /**
     * `handleLogin` up to the request. Returns the payload it sends, or
     * `None` when validation stops it: then only `loginError` changes.
     */
    method BeginLogin() returns (sent: Option<LoginPayload>)
      modifies this
      ensures sent == if LoginRejectedLocally(old(username), old(password)) then None
                      else Some(LoginPayload(Trim(Js, old(username)), old(password)))
      ensures loginError == (if sent == None then ValidationError else "")
      ensures isSubmitting == (sent.Some? || old(isSubmitting))
      ensures user == old(user) && username == old(username) && password == old(password)
      ensures logoutError == old(logoutError) && isLoggingOut == old(isLoggingOut)
      ensures isUserMenuOpen == old(isUserMenuOpen) && isCheckingAuth == old(isCheckingAuth)
    {
      var name, pass := username, password;
      if LoginRejectedLocally(name, pass) {
        loginError := ValidationError;
        sent := None;
      } else {
        var normalizedUsername := Trim(Js, name);
        loginError := "";
        isSubmitting := true;
        sent := Some(LoginPayload(normalizedUsername, pass));
      }
    }

    /** `handleLogin` after the request has settled. */
    method FinishLogin(outcome: LoginOutcome)
      modifies this
      ensures var success := outcome.LoginResponded? && IsOk(outcome.status);
              && user == (if success then Some(outcome.me) else old(user))
              && username == (if success then "" else old(username))
              && password == (if success then "" else old(password))
              && loginError == (if success then ""
                                else if outcome.LoginThrew? then LoginFallback
                                else ParseErrorMessage(outcome.payload, LoginFallback))
      ensures !isSubmitting
      ensures logoutError == old(logoutError) && isLoggingOut == old(isLoggingOut)
      ensures isUserMenuOpen == old(isUserMenuOpen) && isCheckingAuth == old(isCheckingAuth)
    {
      match outcome {
        case LoginResponded(status, me, payload) =>
          if !IsOk(status) {
            loginError := ParseErrorMessage(payload, LoginFallback);
          } else {
            user := Some(me);
            username := "";
            password := "";
            loginError := "";
          }
        case LoginThrew =>
          loginError := LoginFallback;
      }
      isSubmitting := false;
    }

    /** `handleLogout` up to the request. */
    method BeginLogout()
      modifies this
      ensures logoutError == "" && isLoggingOut
      ensures user == old(user) && loginError == old(loginError) && isSubmitting == old(isSubmitting)
      ensures username == old(username) && password == old(password)
      ensures isUserMenuOpen == old(isUserMenuOpen) && isCheckingAuth == old(isCheckingAuth)
    {
      logoutError := "";
      isLoggingOut := true;
    }

    /** `handleLogout` after the request has settled. */
    method FinishLogout(outcome: LogoutOutcome)
      modifies this
      ensures var failed := outcome.LogoutThrew? || LogoutFailed(outcome.status);
              && user == (if failed then old(user) else None)
              && logoutError == (if !failed then old(logoutError)
                                 else if outcome.LogoutThrew? then LogoutFallback
                                 else ParseErrorMessage(outcome.payload, LogoutFallback))
      ensures !isLoggingOut
      ensures loginError == old(loginError) && isSubmitting == old(isSubmitting)
      ensures username == old(username) && password == old(password)
      ensures isUserMenuOpen == old(isUserMenuOpen) && isCheckingAuth == old(isCheckingAuth)
    {
      match outcome {
        case LogoutResponded(status, payload) =>
          if LogoutFailed(status) {
            logoutError := ParseErrorMessage(payload, LogoutFallback);
          } else {
            user := None;
          }
        case LogoutThrew =>
          logoutError := LogoutFallback;
      }
      isLoggingOut := false;
    }
  }

  /**
   * Submitting the form with a blank username or password sends nothing,
   * shows the validation error and does not start submitting.
   */
  method BlankLoginSendsNothing(name: string, pass: string) returns (sent: Option<LoginPayload>, error: string, submitting: bool)
    requires IsBlank(Js, name) || IsBlank(Js, pass)
    ensures sent == None && error == ValidationError && !submitting
  {
    LoginRejectedLocallyIffBlank(name, pass);
    var state := new AuthState();
    state.SetUsername(name);
    state.SetPassword(pass);
    sent := state.BeginLogin();
    error := state.loginError;
    submitting := state.isSubmitting;
  }

  /**
   * A login the server accepts sends the trimmed username with the password
   * as typed, signs the user in and empties the form.
   */
  method AcceptedLogin(name: string, pass: string, me: User)
    returns (sent: Option<LoginPayload>, signedIn: Option<User>, form: (string, string, string), submitting: bool)
    requires !IsBlank(Js, name) && !IsBlank(Js, pass)
    ensures sent == Some(LoginPayload(Trim(Js, name), pass))
    ensures signedIn == Some(me) && form == ("", "", "") && !submitting
  {
    LoginRejectedLocallyIffBlank(name, pass);
    var state := new AuthState();
    state.SetUsername(name);
    state.SetPassword(pass);
    sent := state.BeginLogin();
    state.FinishLogin(LoginResponded(200, me, NoErrorString));
    signedIn := state.user;
    form := (state.username, state.password, state.loginError);
    submitting := state.isSubmitting;
  }

  /** A 204 from `/api/logout` signs the user out, and the menu effect then closes the menu. */
  method LogoutClosesMenu(me: User) returns (signedIn: Option<User>, menuOpen: bool, error: string)
    ensures signedIn == None && !menuOpen && error == ""
  {
    LogoutFailedIffNotOk(204);
    var state := new AuthState();
    state.FinishSessionCheck(SessionResponded(200, me), false);
    state.ToggleUserMenu();
    state.BeginLogout();
    state.FinishLogout(LogoutResponded(204, NoErrorString));
    state.CloseMenuEffect();
    signedIn := state.user;
    menuOpen := state.isUserMenuOpen;
    error := state.logoutError;
  }

  /** A failed logout keeps the user signed in and shows the fallback when the body has no message. */
  method FailedLogoutKeepsUser(me: User, status: int) returns (signedIn: Option<User>, error: string)
    requires !IsOk(status)
    ensures signedIn == Some(me) && error == LogoutFallback
  {
    LogoutFailedIffNotOk(status);
    var state := new AuthState();
    state.FinishSessionCheck(SessionResponded(200, me), false);
    state.BeginLogout();
    state.FinishLogout(LogoutResponded(status, Unparseable));
    signedIn := state.user;
    error := state.logoutError;
  }
}
