/**
 * Runs of the session manager put together from its step methods: bursts of
 * concurrent refreshes, authenticated requests against scripted servers, and
 * the page's login handler feeding the token monitor.
 */
module AuthScenarios {
  import opened Wrappers
  import opened AuthClient
  import UserTable

  /** The login reply simple_viewer.py sends: both lifetimes, and no token strings (the tokens travel as cookies). */
  function ServerLoginReply(): (reply: LoginReply)
    ensures reply.LoginOk? && reply.accessExpiresIn < reply.refreshExpiresIn
  {
    LoginOk(None, None, UserTable.AccessExpiresIn, UserTable.RefreshExpiresIn)
  }

  /** The JSON body login() posts, as written: the form's username under "username". */
  function LoginBodyAsWritten(username: string, password: string): UserTable.Request
  {
    map["username" := username, "password" := password]
  }

  /** The body api_login can answer: the user's login under "login". */
  function LoginBody(login: string, password: string): UserTable.Request
  {
    map["login" := login, "password" := password]
  }

  /**
   * As written, api_login answers every login() with 401: the body carries
   * none of the fields it identifies a user by (login, email, phone).
   */
  lemma ClientLoginAsWrittenRejected(users: map<string, UserTable.User>, order: seq<string>, username: string, password: string)
    ensures UserTable.Login(users, order, LoginBodyAsWritten(username, password))
            == UserTable.Rejected(UserTable.Unauthorized, UserTable.BadCredentials)
  {
  }

  /** Sending the login under "login", a user who has just registered logs in and receives both lifetimes. */
  lemma {:induction false} ClientLoginAfterRegister(users: map<string, UserTable.User>, order: seq<string>, req: UserTable.Request)
    requires UserTable.WellFormed(users, order)
    requires UserTable.RegisterVerdict(users, req).Issued?
    ensures var users', order' := users[req["login"] := UserTable.NewUser(req)], order + [req["login"]];
            UserTable.Login(users', order', LoginBody(req["login"], req["password"]))
            == UserTable.Issued(UserTable.AccessExpiresIn, UserTable.RefreshExpiresIn)
  {
    UserTable.RegisterThenLogin(users, order, req);
  }

  /**
   * One caller starts a refresh and `callers` more call refreshAccessToken
   * before the server answers with `reply`. Exactly one refresh call reaches
   * the network (none when the refresh token has already expired), and every
   * caller observes the same outcome as the first.
   */
  method ConcurrentRefreshes(expiries: map<string, int>, now: int, callers: nat, reply: RefreshReply)
    returns (outcome: Settlement, received: seq<Settlement>, networkCalls: nat)
    ensures var refreshExpired := ExpiryKey(Refresh) !in expiries || expiries[ExpiryKey(Refresh)] <= now;
            && networkCalls == (if refreshExpired then 0 else 1)
            && outcome == (if refreshExpired then RejectedWith(RefreshTokenExpired) else Outcome(reply))
    ensures |received| == callers
    ensures forall i :: 0 <= i < callers ==> received[i] == outcome
  {
    var auth := new AuthService(map[], expiries);
    var first := auth.StartRefresh(now);
    networkCalls := if first == AwaitingNetwork then 1 else 0;
    received := [];
    var waiters: seq<WaiterId> := [];
    var i := 0;
    while i < callers
      invariant 0 <= i <= callers
      invariant auth.Valid()
      invariant first == AwaitingNetwork || first == FailedExpired
      invariant networkCalls == (if first == AwaitingNetwork then 1 else 0)
      invariant first == AwaitingNetwork ==> auth.isRefreshing && auth.queue == waiters && |waiters| == i && received == []
      invariant first == FailedExpired ==>
                  !auth.isRefreshing && ExpiryKey(Refresh) !in auth.store
                  && |received| == i && forall j :: 0 <= j < i ==> received[j] == RejectedWith(RefreshTokenExpired)
    {
      var s := auth.StartRefresh(now);
      networkCalls := networkCalls + if s == AwaitingNetwork then 1 else 0;
      match s {
        case AwaitingNetwork =>
        case Enqueued(w) => waiters := waiters + [w];
        case FailedExpired => received := received + [RejectedWith(RefreshTokenExpired)];
      }
      i := i + 1;
    }
    if first == FailedExpired {
      outcome := RejectedWith(RefreshTokenExpired);
      return;
    }
    outcome := auth.FinishRefresh(reply, now);
    var settlements := auth.settled;
    i := 0;
    while i < callers
      invariant 0 <= i <= callers
      invariant |received| == i
      invariant forall j :: 0 <= j < i ==> received[j] == outcome
    {
      received := received + [settlements[waiters[i]]];
      i := i + 1;
    }
  }

  /**
   * Access expired, refresh still valid: the request refreshes exactly once
   * and then issues the request once with the new access token.
   */
  method ExpiredAccessIsRefreshedFirst(now: int, token: string) returns (result: RequestResult, fetches: nat, refreshCalls: nat)
    requires token != ""
    ensures refreshCalls == 1 && fetches == 1 && result == Response(200, "")
  {
    var auth := new AuthService(map[], map[ExpiryKey(Access) := now, ExpiryKey(Refresh) := now + 1]);
    result, fetches, refreshCalls := auth.MakeAuthenticatedRequest(
      now, [RefreshOk(Some(token), UserTable.AccessExpiresIn), RefreshUnreachable], [Http(200, ""), Unreachable]);
  }

  /**
   * The server answers 401 access_token_expired while the refresh token is
   * valid: one refresh and exactly one retry, whose response is returned.
   */
  method RetriesOnceAfterExpiredAccess(now: int, token: string) returns (result: RequestResult, fetches: nat, refreshCalls: nat)
    requires token != ""
    ensures refreshCalls == 1 && fetches == 2 && result == Response(200, "")
  {
    var auth := new AuthService(map[AccessTokenKey := token], map[ExpiryKey(Access) := now + 1, ExpiryKey(Refresh) := now + 1]);
    result, fetches, refreshCalls := auth.MakeAuthenticatedRequest(
      now, [RefreshUnreachable, RefreshOk(Some(token), UserTable.AccessExpiresIn)],
      [Http(Unauthorized, AccessExpiredCode), Http(200, "")]);
  }

  /**
   * handleLogin() as the page has it: after a successful login it stores the
   * flag on the event handler's own receiver, so the service's is_login stays
   * as it was.
   */
  method HandleLoginAsWritten(auth: AuthService, reply: LoginReply, now: int) returns (success: bool)
    requires auth.Valid()
    modifies auth
    ensures auth.Valid()
    ensures success <==> reply.LoginOk?
    ensures success ==> forall t :: auth.IsTokenExpired(Access, t) <==> t >= now + reply.accessExpiresIn * 1000
    ensures success ==> forall t :: auth.IsTokenExpired(Refresh, t) <==> t >= now + reply.refreshExpiresIn * 1000
    ensures auth.isRefreshing == old(auth.isRefreshing)
    ensures auth.isLogin == old(auth.isLogin)
  {
    success := auth.Login(reply, now);
  }

  /** handleLogin() as intended: a successful login sets the service's is_login. */
  method HandleLogin(auth: AuthService, reply: LoginReply, now: int) returns (success: bool)
    requires auth.Valid()
    modifies auth
    ensures auth.Valid()
    ensures success <==> reply.LoginOk?
    ensures success ==> forall t :: auth.IsTokenExpired(Access, t) <==> t >= now + reply.accessExpiresIn * 1000
    ensures success ==> forall t :: auth.IsTokenExpired(Refresh, t) <==> t >= now + reply.refreshExpiresIn * 1000
    ensures auth.isRefreshing == old(auth.isRefreshing)
    ensures auth.isLogin == (success || old(auth.isLogin))
  {
    success := auth.Login(reply, now);
    if success {
      auth.isLogin := true;
    }
  }

  /**
   * A page load: the page's one service is built from localStorage, which
   * outlives the page. No code on the page sets is_login except handleLogin,
   * which navigates away right after, so the monitor's ticks on any page, at
   * any instants, do nothing and change nothing.
   */
  method MonitorOnPageLoad(savedTokens: map<string, string>, expiries: map<string, int>, times: seq<int>)
    returns (actions: seq<TickAction>)
    ensures |actions| == |times|
    ensures forall i :: 0 <= i < |actions| ==> actions[i] == Idle
  {
    var page := new AuthService(savedTokens, expiries);
    actions := [];
    var i := 0;
    while i < |times|
      invariant 0 <= i <= |times|
      invariant |actions| == i
      invariant forall j :: 0 <= j < i ==> actions[j] == Idle
      invariant page.Valid() && !page.isLogin
    {
      var action := page.Tick(times[i]);
      actions := actions + [action];
      i := i + 1;
    }
  }

  /**
   * handleLogin as written, then the redirect to /dashboard: the dashboard
   * page builds a new service from the same localStorage, and one hour after
   * logging in its tick does nothing although the access token has expired.
   */
  method MonitorAfterLoginAsWritten(now: int) returns (action: TickAction)
    ensures action == Idle
  {
    var login := new AuthService(map[], map[]);
    var _ := HandleLoginAsWritten(login, ServerLoginReply(), now);
    var dashboard := new AuthService(login.saved, login.store);
    action := dashboard.Tick(now + UserTable.AccessExpiresIn * 1000);
  }

  /**
   * The one-line fix, `authService.is_login = success`, is not enough: the
   * flag is set on the login page's service, which the redirect discards.
   */
  method MonitorAfterOneLineFix(now: int) returns (action: TickAction)
    ensures action == Idle
  {
    var login := new AuthService(map[], map[]);
    var _ := HandleLogin(login, ServerLoginReply(), now);
    var dashboard := new AuthService(login.saved, login.store);
    action := dashboard.Tick(now + UserTable.AccessExpiresIn * 1000);
  }

  /**
   * As intended, the page that runs the monitor knows that a session is
   * logged in. Then the dashboard's tick one hour after login starts a
   * refresh. Once the refresh token has expired, a tick tears the session
   * down, and every later tick does nothing.
   */
  method MonitorAfterLogin(now: int) returns (refreshing: TickAction, teardown: TickAction, after: TickAction)
    ensures refreshing == StartedRefresh && teardown == TornDown && after == Idle
  {
    var login := new AuthService(map[], map[]);
    var _ := HandleLogin(login, ServerLoginReply(), now);
    var hourLater := now + UserTable.AccessExpiresIn * 1000;
    var monthLater := now + UserTable.RefreshExpiresIn * 1000;
    assert login.IsTokenExpired(Access, hourLater) && !login.IsTokenExpired(Refresh, hourLater);
    assert login.IsTokenExpired(Refresh, monthLater);
    var auth := new AuthService(login.saved, login.store);
    auth.isLogin := true;
    assert auth.IsTokenExpired(Access, hourLater) && !auth.IsTokenExpired(Refresh, hourLater);
    assert auth.IsTokenExpired(Refresh, monthLater);
    ghost var loggedIn := auth.store;
    refreshing := auth.Tick(hourLater);
    var _ := auth.FinishRefresh(RefreshDenied("server_error"), hourLater);
    assert auth.store == loggedIn;
    teardown := auth.Tick(monthLater);
    after := auth.Tick(monthLater + 60000);
  }
}
