/**
 * The browser-side session manager (class AuthService of static/JS/auth.js).
 *
 * The clock is the parameter `now` (epoch milliseconds). Every network round
 * trip is an explicit reply parameter. The one suspension point inside the
 * refresh protocol, the `await fetch('api/refresh')`, splits refreshAccessToken
 * into two steps: StartRefresh runs up to the fetch and FinishRefresh runs
 * after the reply. An interleaving of refresh calls is then a sequence of
 * StartRefresh and FinishRefresh calls on one AuthService object. No other
 * interleaving is modelled: RefreshAccessToken lets an in-flight refresh
 * finish before its queued caller resumes, and MakeAuthenticatedRequest runs
 * its awaits as one uninterrupted step.
 */
module AuthClient {
  import opened Wrappers

  const Access: string := "access"
  const Refresh: string := "refresh"
  const AccessTokenKey: string := "access_token"
  const RefreshTokenKey: string := "refresh_token"
  /** The refresh endpoint's error code for a dead refresh token. */
  const RefreshExpiredCode: string := "refresh_token_expired"
  /** The error code a protected endpoint sends with a 401 for a dead access token. */
  const AccessExpiredCode: string := "access_token_expired"
  const Unauthorized: int := 401

  /** The localStorage key that holds the expiry instant of a token kind. */
  function ExpiryKey(kind: string): string
  {
    kind + "_token_expiry"
  }

  /** Distinct token kinds never share an expiry key, so writing one leaves the others alone. */
  lemma {:induction false} ExpiryKeyInjective(a: string, b: string)
    ensures ExpiryKey(a) == ExpiryKey(b) ==> a == b
  {
    if ExpiryKey(a) == ExpiryKey(b) {
      assert |a| == |b|;
      assert a == ExpiryKey(a)[..|a|];
      assert b == ExpiryKey(b)[..|b|];
    }
  }

  /** JavaScript truthiness of a token: null, undefined and "" are falsy. */
  predicate Truthy(token: Option<string>)
  {
    token.Some? && token.value != ""
  }

  /** What localStorage.setItem stores for a token that may be undefined. */
  function Stored(token: Option<string>): string
  {
    if token.Some? then token.value else "undefined"
  }

  type WaiterId = nat

  /** The three ways a refresh attempt can fail: the two errors the code throws, or the fetch itself rejecting. */
  datatype RefreshError = RefreshTokenExpired | RefreshFailed | NetworkError

  /** How a refreshAccessToken promise settles. */
  datatype Settlement = Resolved | RejectedWith(error: RefreshError)

  /** What the synchronous part of refreshAccessToken ends in. */
  datatype StartResult =
    | Enqueued(waiter: WaiterId)   // a refresh was in flight: the caller now waits in the queue
    | FailedExpired                // the refresh token had expired: no network call was made
    | AwaitingNetwork              // the caller drives the refresh and awaits the server

  /** The reply to POST api/refresh, after its JSON body has been read. */
  datatype RefreshReply =
    | RefreshOk(accessToken: Option<string>, accessExpiresIn: int)
    | RefreshDenied(code: string)
    | RefreshUnreachable

  /** The reply to POST api/login. */
  datatype LoginReply =
    | LoginOk(accessToken: Option<string>, refreshToken: Option<string>, accessExpiresIn: int, refreshExpiresIn: int)
    | LoginRejected
    | LoginUnreachable

  /** The reply to a protected request: a status and the `error` field of its body. */
  datatype FetchReply = Http(status: int, code: string) | Unreachable

  datatype RequestError = RefreshError(cause: RefreshError) | NoAccessToken | FetchError

  /** What makeAuthenticatedRequest gives its caller: a response, undefined, or a thrown error. */
  datatype RequestResult = Response(status: int, code: string) | Undefined | Threw(error: RequestError)

  /** What one tick of the token monitor did. */
  datatype TickAction = Idle | TornDown | StartedRefresh

  /** The outcome the driver of a refresh, and every waiter behind it, observe for a server reply. */
  function Outcome(reply: RefreshReply): (r: Settlement)
    ensures r == Resolved <==> reply.RefreshOk?
    ensures r == RejectedWith(RefreshTokenExpired) <==> reply == RefreshDenied(RefreshExpiredCode)
    ensures r == RejectedWith(RefreshFailed) <==> reply.RefreshDenied? && reply.code != RefreshExpiredCode
  {
    match reply
    case RefreshOk(_, _) => Resolved
    case RefreshDenied(code) => RejectedWith(if code == RefreshExpiredCode then RefreshTokenExpired else RefreshFailed)
    case RefreshUnreachable => RejectedWith(NetworkError)
  }

  /** The settlements after the waiters are settled one by one, in queue order, with `outcome`. */
  function SettleAll(m: map<WaiterId, Settlement>, waiters: seq<WaiterId>, outcome: Settlement): (r: map<WaiterId, Settlement>)
    ensures forall w :: w in r ==> w in m || w in waiters
    ensures forall i :: 0 <= i < |waiters| ==> waiters[i] in r && r[waiters[i]] == outcome
    ensures forall w :: w in m && w !in waiters ==> w in r && r[w] == m[w]
    decreases |waiters|
  {
    if waiters == [] then m
    else SettleAll(m, waiters[..|waiters| - 1], outcome)[waiters[|waiters| - 1] := outcome]
  }

  /** Settling waiters below a bound keeps every settled identity below it. */
  lemma SettleAllBelow(m: map<WaiterId, Settlement>, waiters: seq<WaiterId>, outcome: Settlement, bound: WaiterId)
    requires forall w :: w in m ==> w < bound
    requires forall i :: 0 <= i < |waiters| ==> waiters[i] < bound
    ensures forall w :: w in SettleAll(m, waiters, outcome) ==> w < bound
  {
  }

  /** The whole state of an AuthService object, as one value. */
  datatype Snapshot = Snapshot(
    store: map<string, int>,
    saved: map<string, string>,
    accessToken: Option<string>,
    refreshToken: Option<string>,
    isRefreshing: bool,
    queue: seq<WaiterId>,
    isLogin: bool,
    nextWaiter: WaiterId,
    settled: map<WaiterId, Settlement>,
    notices: nat)

  /** The state logout() leaves: the four localStorage keys gone, both tokens null, is_login false. */
  function LoggedOut(s: Snapshot): Snapshot
  {
    s.(store := s.store - {ExpiryKey(Access), ExpiryKey(Refresh)},
       saved := s.saved - {AccessTokenKey, RefreshTokenKey},
       accessToken := None, refreshToken := None, isLogin := false)
  }

  /** The state handleRefreshTokenExpired() leaves: logged out, and one more re-authentication notice shown. */
  function TornDownState(s: Snapshot): Snapshot
  {
    LoggedOut(s).(notices := s.notices + 1)
  }

  /**
   * The state refreshAccessToken() leaves once the server has answered the
   * refresh in flight from `s`: every queued waiter settles with the outcome,
   * the queue empties and the flag clears; an ok reply stores the new access
   * token and its expiry, REFRESH_TOKEN_EXPIRED tears the session down, and
   * any other failure changes nothing else.
   */
  function AfterReply(s: Snapshot, reply: RefreshReply, now: int): Snapshot
  {
    var outcome := Outcome(reply);
    var session :=
      if outcome.Resolved? then
        s.(accessToken := reply.accessToken,
           saved := s.saved[AccessTokenKey := Stored(reply.accessToken)],
           store := s.store[ExpiryKey(Access) := now + reply.accessExpiresIn * 1000])
      else if outcome == RejectedWith(RefreshTokenExpired) then TornDownState(s)
      else s;
    session.(isRefreshing := false, queue := [], settled := SettleAll(s.settled, s.queue, outcome))
  }

  /**
   * The state an awaited refreshAccessToken() call leaves from `s` when the
   * refresh reaches the server: queued behind the driver in flight, or
   * driving the call itself.
   */
  function Awaited(s: Snapshot, reply: RefreshReply, now: int): Snapshot
  {
    if s.isRefreshing then AfterReply(s.(queue := s.queue + [s.nextWaiter], nextWaiter := s.nextWaiter + 1), reply, now)
    else AfterReply(s.(isRefreshing := true), reply, now)
  }

  /** The server's answer to the refresh in flight settles every queued promise with the one outcome. */
  lemma AfterReplySettlesQueue(s: Snapshot, reply: RefreshReply, now: int, t: Snapshot)
    requires t == AfterReply(s, reply, now)
    ensures !t.isRefreshing && t.queue == []
    ensures forall i :: 0 <= i < |s.queue| ==> s.queue[i] in t.settled && t.settled[s.queue[i]] == Outcome(reply)
  {
  }

  /**
   * What the server's answer to the refresh in flight does to the session:
   * on success the new access token in the object and in localStorage, the
   * rest of the session kept; on REFRESH_TOKEN_EXPIRED the session torn
   * down with exactly one more notice; on any other failure the session kept.
   */
  lemma AfterReplySession(s: Snapshot, reply: RefreshReply, now: int, t: Snapshot)
    requires t == AfterReply(s, reply, now)
    ensures Outcome(reply).Resolved? ==>
              t.accessToken == reply.accessToken && t.saved[AccessTokenKey] == Stored(reply.accessToken)
              && t.store == s.store[ExpiryKey(Access) := now + reply.accessExpiresIn * 1000]
              && t.refreshToken == s.refreshToken && t.isLogin == s.isLogin && t.notices == s.notices
    ensures Outcome(reply) == RejectedWith(RefreshTokenExpired) ==>
              t.accessToken == None && t.refreshToken == None && !t.isLogin && t.notices == s.notices + 1
              && ExpiryKey(Access) !in t.store && ExpiryKey(Refresh) !in t.store
    ensures Outcome(reply).RejectedWith? && Outcome(reply) != RejectedWith(RefreshTokenExpired) ==>
              t.store == s.store && t.saved == s.saved && t.accessToken == s.accessToken
              && t.refreshToken == s.refreshToken && t.isLogin == s.isLogin && t.notices == s.notices
  {
  }

  /** An awaited refresh that reaches the server does to the session what the server's answer does. */
  lemma AwaitedSession(s: Snapshot, reply: RefreshReply, now: int, t: Snapshot)
    requires t == Awaited(s, reply, now)
    ensures Outcome(reply).Resolved? ==>
              t.accessToken == reply.accessToken && t.saved[AccessTokenKey] == Stored(reply.accessToken)
              && t.store == s.store[ExpiryKey(Access) := now + reply.accessExpiresIn * 1000]
              && t.refreshToken == s.refreshToken && t.isLogin == s.isLogin && t.notices == s.notices
    ensures Outcome(reply) == RejectedWith(RefreshTokenExpired) ==>
              t.accessToken == None && t.refreshToken == None && !t.isLogin && t.notices == s.notices + 1
              && ExpiryKey(Access) !in t.store && ExpiryKey(Refresh) !in t.store
    ensures Outcome(reply).RejectedWith? && Outcome(reply) != RejectedWith(RefreshTokenExpired) ==>
              t.store == s.store && t.saved == s.saved && t.accessToken == s.accessToken
              && t.refreshToken == s.refreshToken && t.isLogin == s.isLogin && t.notices == s.notices
  {
  }

  /**
   * A caller that arrives while a refresh is in flight and awaits it: its own
   * promise settles with the same outcome as the driver's and as every
   * promise queued before it.
   */
  lemma QueuedCallerSettlesWithDriver(s: Snapshot, reply: RefreshReply, now: int, t: Snapshot)
    requires s.isRefreshing && t == Awaited(s, reply, now)
    ensures !t.isRefreshing && t.queue == []
    ensures forall i :: 0 <= i < |s.queue| ==> s.queue[i] in t.settled && t.settled[s.queue[i]] == Outcome(reply)
    ensures s.nextWaiter in t.settled && t.settled[s.nextWaiter] == Outcome(reply)
  {
    var queued := s.(queue := s.queue + [s.nextWaiter], nextWaiter := s.nextWaiter + 1);
    AfterReplySettlesQueue(queued, reply, now, t);
    assert queued.queue[|s.queue|] == s.nextWaiter;
    assert forall i :: 0 <= i < |s.queue| ==> queued.queue[i] == s.queue[i];
  }

  class AuthService {
    /** The expiry instants kept in localStorage, parsed to integers. */
    var store: map<string, int>
    /** The token strings kept in localStorage. */
    var saved: map<string, string>
    var accessToken: Option<string>
    var refreshToken: Option<string>
    var isRefreshing: bool
    /** failedQueue: the pending promises of callers that arrived during a refresh. */
    var queue: seq<WaiterId>
    /** is_login: gates the token monitor. */
    var isLogin: bool
    /** The identity the next queued promise receives. */
    var nextWaiter: WaiterId
    /** How each queued promise has settled, once it has. */
    var settled: map<WaiterId, Settlement>
    /** How many re-authentication notices (each with its scheduled redirect) teardown has shown. */
    var notices: nat

    ghost function State(): Snapshot
      reads this
    {
      Snapshot(store, saved, accessToken, refreshToken, isRefreshing, queue, isLogin, nextWaiter, settled, notices)
    }

    /**
     * The waiter queue is non-empty only while a refresh is in flight; each
     * queued promise is distinct and still pending.
     */
    ghost predicate Valid()
      reads this
    {
      && (queue != [] ==> isRefreshing)
      && (forall i, j :: 0 <= i < j < |queue| ==> queue[i] != queue[j])
      && (forall i :: 0 <= i < |queue| ==> queue[i] < nextWaiter && queue[i] !in settled)
      && (forall w :: w in settled ==> w < nextWaiter)
    }

    /** A new service reads both tokens from localStorage; nothing is in flight and is_login is false. */
    constructor (savedTokens: map<string, string>, expiries: map<string, int>)
      ensures Valid()
      ensures State() == Snapshot(expiries, savedTokens, Get(savedTokens, AccessTokenKey),
                                  Get(savedTokens, RefreshTokenKey), false, [], false, 0, map[], 0)
    {
      store := expiries;
      saved := savedTokens;
      accessToken := Get(savedTokens, AccessTokenKey);
      refreshToken := Get(savedTokens, RefreshTokenKey);
      isRefreshing := false;
      queue := [];
      isLogin := false;
      nextWaiter := 0;
      settled := map[];
      notices := 0;
    }

    /** A token kind is expired when it has no record, or when the clock has reached the record. */
    predicate IsTokenExpired(kind: string, now: int)
      reads this
      ensures ExpiryKey(kind) !in store ==> IsTokenExpired(kind, now)
      ensures ExpiryKey(kind) in store ==> (IsTokenExpired(kind, now) <==> store[ExpiryKey(kind)] <= now)
    {
      ExpiryKey(kind) !in store || now >= store[ExpiryKey(kind)]
    }

    /** Optimistic local check: some token kind has a record that lies in the future. */
    predicate IsAuthenticated(now: int)
      reads this
      ensures IsAuthenticated(now) <==>
                (ExpiryKey(Access) in store && now < store[ExpiryKey(Access)])
                || (ExpiryKey(Refresh) in store && now < store[ExpiryKey(Refresh)])
    {
      !IsTokenExpired(Access, now) || !IsTokenExpired(Refresh, now)
    }

    /** Records that `kind` expires `expiresIn` seconds after `now`; no other kind's expiry changes. */
    method SetTokenExpiry(kind: string, expiresIn: int, now: int)
      modifies this`store
      ensures store == old(store)[ExpiryKey(kind) := now + expiresIn * 1000]
      ensures forall t :: IsTokenExpired(kind, t) <==> t >= now + expiresIn * 1000
      ensures forall other, t :: other != kind ==> (IsTokenExpired(other, t) <==> old(IsTokenExpired(other, t)))
    {
      store := store[ExpiryKey(kind) := now + expiresIn * 1000];
      forall other | other != kind
        ensures ExpiryKey(other) != ExpiryKey(kind)
      {
        ExpiryKeyInjective(other, kind);
      }
    }

    method SetTokens(access: Option<string>, refresh: Option<string>)
      modifies this`accessToken, this`refreshToken, this`saved
      ensures accessToken == access && refreshToken == refresh
      ensures saved == old(saved)[AccessTokenKey := Stored(access)][RefreshTokenKey := Stored(refresh)]
    {
      accessToken := access;
      refreshToken := refresh;
      saved := saved[AccessTokenKey := Stored(access)];
      saved := saved[RefreshTokenKey := Stored(refresh)];
    }

    /**
     * login(): on an accepted reply, stores both tokens and both expiry instants
     * and reports success; otherwise reports failure and changes nothing. It
     * does not set is_login.
     */
    method Login(reply: LoginReply, now: int) returns (ok: bool)
      requires Valid()
      modifies this
      ensures Valid()
      ensures ok <==> reply.LoginOk?
      ensures !ok ==> State() == old(State())
      ensures ok ==> State() == old(State()).(
                accessToken := reply.accessToken, refreshToken := reply.refreshToken,
                saved := old(saved)[AccessTokenKey := Stored(reply.accessToken)][RefreshTokenKey := Stored(reply.refreshToken)],
                store := old(store)[ExpiryKey(Access) := now + reply.accessExpiresIn * 1000]
                                   [ExpiryKey(Refresh) := now + reply.refreshExpiresIn * 1000])
      ensures ok ==> forall t :: IsTokenExpired(Refresh, t) <==> t >= now + reply.refreshExpiresIn * 1000
      ensures ok ==> forall t :: IsTokenExpired(Access, t) <==> t >= now + reply.accessExpiresIn * 1000
    {
      if !reply.LoginOk? {
        return false;
      }
      SetTokens(reply.accessToken, reply.refreshToken);
      SetTokenExpiry(Access, reply.accessExpiresIn, now);
      SetTokenExpiry(Refresh, reply.refreshExpiresIn, now);
      ok := true;
    }

    /**
     * logout() (local part): both tokens become null, is_login false, and the
     * four localStorage keys are removed, after which nobody is authenticated.
     * The server is notified only when there was a truthy access token.
     */
    method Logout() returns (notified: bool)
      requires Valid()
      modifies this
      ensures Valid()
      ensures notified <==> Truthy(old(accessToken))
      ensures State() == LoggedOut(old(State()))
      ensures forall t :: !IsAuthenticated(t)
    {
      notified := Truthy(accessToken);
      accessToken := None;
      refreshToken := None;
      isLogin := false;
      saved := saved - {AccessTokenKey, RefreshTokenKey};
      store := store - {ExpiryKey(Access), ExpiryKey(Refresh)};
    }

    /** handleRefreshTokenExpired() (state part): logout plus one re-authentication notice. */
    method HandleRefreshTokenExpired()
      requires Valid()
      modifies this
      ensures Valid()
      ensures State() == TornDownState(old(State()))
      ensures forall t :: !IsAuthenticated(t)
    {
      var _ := Logout();
      notices := notices + 1;
    }

    /** With neither expiry instant stored, the session is authenticated at no instant. */
    lemma UnauthenticatedWithoutExpiries()
      requires ExpiryKey(Access) !in store && ExpiryKey(Refresh) !in store
      ensures forall t :: !IsAuthenticated(t)
    {
    }

    /** The forEach over failedQueue: settles each waiter with `outcome`, in queue order. */
    static method SettleEach(m: map<WaiterId, Settlement>, waiters: seq<WaiterId>, outcome: Settlement)
      returns (r: map<WaiterId, Settlement>)
      ensures r == SettleAll(m, waiters, outcome)
    {
      r := m;
      var i := 0;
      while i < |waiters|
        invariant 0 <= i <= |waiters|
        invariant r == SettleAll(m, waiters[..i], outcome)
      {
        assert waiters[..i + 1][..i] == waiters[..i];
        r := r[waiters[i] := outcome];
        i := i + 1;
      }
      assert waiters[..i] == waiters;
    }

    /** Settles every queued waiter with `outcome`, in queue order, then empties the queue. */
    method Drain(outcome: Settlement)
      requires Valid()
      modifies this`settled, this`queue
      ensures Valid()
      ensures queue == []
      ensures settled == SettleAll(old(settled), old(queue), outcome)
    {
      SettleAllBelow(settled, queue, outcome, nextWaiter);
      settled := SettleEach(settled, queue, outcome);
      queue := [];
    }

    /**
     * refreshAccessToken() up to its `await fetch`. While a refresh is in
     * flight the caller is queued and nothing else changes (in particular, no
     * network call). Otherwise the caller becomes the driver: with an expired
     * refresh token it fails at once and tears the session down; else it
     * leaves the in-flight flag set and awaits the server.
     */
    method StartRefresh(now: int) returns (s: StartResult)
      requires Valid()
      modifies this
      ensures Valid()
      ensures old(isRefreshing) ==>
                s == Enqueued(old(nextWaiter))
                && State() == old(State()).(queue := old(queue) + [s.waiter], nextWaiter := old(nextWaiter) + 1)
      ensures !old(isRefreshing) && old(IsTokenExpired(Refresh, now)) ==>
                s == FailedExpired && State() == TornDownState(old(State()))
      ensures !old(isRefreshing) && !old(IsTokenExpired(Refresh, now)) ==>
                s == AwaitingNetwork && State() == old(State()).(isRefreshing := true)
    {
      if isRefreshing {
        s := Enqueued(nextWaiter);
        queue := queue + [nextWaiter];
        nextWaiter := nextWaiter + 1;
        return;
      }
      isRefreshing := true;
      if IsTokenExpired(Refresh, now) {
        // catch: reject the (empty) queue and tear down; finally: clear the flag
        Drain(RejectedWith(RefreshTokenExpired));
        HandleRefreshTokenExpired();
        isRefreshing := false;
        s := FailedExpired;
        return;
      }
      s := AwaitingNetwork;
    }

    /** A successful refresh keeps the new access token, in the object and in localStorage, and its expiry instant. */
    method StoreAccessToken(token: Option<string>, expiresIn: int, now: int)
      requires Valid()
      modifies this`accessToken, this`saved, this`store
      ensures Valid()
      ensures accessToken == token
      ensures saved == old(saved)[AccessTokenKey := Stored(token)]
      ensures store == old(store)[ExpiryKey(Access) := now + expiresIn * 1000]
    {
      accessToken := token;
      saved := saved[AccessTokenKey := Stored(token)];
      SetTokenExpiry(Access, expiresIn, now);
    }

    /** The try block after an ok reply, and the finally clause: keep the new access token, resolve every waiter, clear the flag. */
    method RefreshSucceeded(token: Option<string>, expiresIn: int, now: int)
      requires Valid() && isRefreshing
      modifies this
      ensures Valid()
      ensures State() == old(State()).(
                accessToken := token,
                saved := old(saved)[AccessTokenKey := Stored(token)],
                store := old(store)[ExpiryKey(Access) := now + expiresIn * 1000],
                isRefreshing := false, queue := [], settled := SettleAll(old(settled), old(queue), Resolved))
    {
      ghost var before := State();
      StoreAccessToken(token, expiresIn, now);
      ghost var stored := before.(accessToken := token,
                                  saved := before.saved[AccessTokenKey := Stored(token)],
                                  store := before.store[ExpiryKey(Access) := now + expiresIn * 1000]);
      assert State() == stored;
      Drain(Resolved);
      assert State() == stored.(queue := [], settled := settled);
      isRefreshing := false;
    }

    /** The catch and finally clauses: reject every waiter, tear down on REFRESH_TOKEN_EXPIRED, clear the flag. */
    method RefreshRejected(error: RefreshError)
      requires Valid() && isRefreshing
      modifies this
      ensures Valid()
      ensures State() == (if error == RefreshTokenExpired then TornDownState(old(State())) else old(State())).(
                isRefreshing := false, queue := [], settled := SettleAll(old(settled), old(queue), RejectedWith(error)))
    {
      ghost var before := State();
      Drain(RejectedWith(error));
      ghost var drained := State();
      assert drained == before.(queue := [], settled := settled);
      if error == RefreshTokenExpired {
        HandleRefreshTokenExpired();
        assert State() == TornDownState(drained);
      }
      isRefreshing := false;
    }

    /**
     * refreshAccessToken() after the server replied. The driver's outcome is
     * the reply's; every queued waiter settles with that same outcome; the
     * queue ends empty and the in-flight flag false on every path. A success
     * stores the new access token and its expiry; REFRESH_TOKEN_EXPIRED tears
     * the session down once; any other failure leaves the session as it was.
     */
    method FinishRefresh(reply: RefreshReply, now: int) returns (r: Settlement)
      requires Valid() && isRefreshing
      modifies this
      ensures Valid()
      ensures r == Outcome(reply)
      ensures !isRefreshing && queue == []
      ensures settled == SettleAll(old(settled), old(queue), r)
      ensures State() == AfterReply(old(State()), reply, now)
    {
      r := Outcome(reply);
      match r {
        case Resolved => RefreshSucceeded(reply.accessToken, reply.accessExpiresIn, now);
        case RejectedWith(error) => RefreshRejected(error);
      }
    }

    /**
     * `await this.refreshAccessToken()` run to completion, with `reply` the
     * server's answer to the refresh call in flight: this caller's own call
     * when it drives, or the earlier driver's call when it is queued (the
     * driver's continuation runs first and settles this caller's promise).
     */
    method RefreshAccessToken(reply: RefreshReply, now: int) returns (r: Settlement, drove: bool)
      requires Valid()
      modifies this
      ensures Valid()
      ensures drove <==> !old(isRefreshing) && !old(IsTokenExpired(Refresh, now))
      ensures r == if !old(isRefreshing) && old(IsTokenExpired(Refresh, now))
                   then RejectedWith(RefreshTokenExpired) else Outcome(reply)
      ensures r == RejectedWith(RefreshTokenExpired) ==> forall t :: !IsAuthenticated(t)
      ensures !old(isRefreshing) && old(IsTokenExpired(Refresh, now)) ==> State() == TornDownState(old(State()))
      ensures old(isRefreshing) || !old(IsTokenExpired(Refresh, now)) ==> State() == Awaited(old(State()), reply, now)
    {
      ghost var before := State();
      var s := StartRefresh(now);
      match s {
        case FailedExpired =>
          r, drove := RejectedWith(RefreshTokenExpired), false;
          UnauthenticatedWithoutExpiries();
        case AwaitingNetwork =>
          ghost var started := State();
          assert started == before.(isRefreshing := true);
          r := FinishRefresh(reply, now);
          drove := true;
          assert State() == Awaited(before, reply, now);
          AfterReplySession(started, reply, now, State());
          if r == RejectedWith(RefreshTokenExpired) {
            UnauthenticatedWithoutExpiries();
          }
        case Enqueued(w) =>
          ghost var queued := State();
          assert queued == before.(queue := before.queue + [w], nextWaiter := w + 1);
          var driver := FinishRefresh(reply, now);
          r, drove := settled[w], false;
          assert State() == Awaited(before, reply, now);
          AfterReplySession(queued, reply, now, State());
          if r == RejectedWith(RefreshTokenExpired) {
            UnauthenticatedWithoutExpiries();
          }
      }
    }

    /**
     * The opening of makeAuthenticatedRequest(): with access expired and
     * refresh valid, await a refresh answered by `reply`. `stop` is what the
     * request returns or throws when the refresh fails: undefined after
     * REFRESH_TOKEN_EXPIRED (already handled by the teardown), the error
     * otherwise.
     */
    method RefreshUpFront(reply: RefreshReply, now: int) returns (stop: Option<RequestResult>, drove: bool)
      requires Valid()
      modifies this
      ensures Valid()
      ensures old(IsTokenExpired(Access, now)) && !old(IsTokenExpired(Refresh, now)) ==>
                State() == Awaited(old(State()), reply, now)
                && drove == !old(isRefreshing)
                && stop == match Outcome(reply)
                           case Resolved => None
                           case RejectedWith(RefreshTokenExpired) => Some(Undefined)
                           case RejectedWith(e) => Some(Threw(RefreshError(e)))
      ensures !(old(IsTokenExpired(Access, now)) && !old(IsTokenExpired(Refresh, now))) ==>
                State() == old(State()) && stop == None && !drove
      ensures stop == None ==> (IsTokenExpired(Refresh, now) <==> old(IsTokenExpired(Refresh, now)))
    {
      stop, drove := None, false;
      if IsTokenExpired(Access, now) && !IsTokenExpired(Refresh, now) {
        ghost var before := State();
        var r;
        r, drove := RefreshAccessToken(reply, now);
        AwaitedSession(before, reply, now, State());
        if r.RejectedWith? {
          // REFRESH_TOKEN_EXPIRED is already handled by handleRefreshTokenExpired
          stop := Some(if r.error == RefreshTokenExpired then Undefined else Threw(RefreshError(r.error)));
        } else {
          ExpiryKeyInjective(Access, Refresh);
        }
      }
    }

    /**
     * makeAuthenticatedRequest() after a 401 access_token_expired: with
     * refresh still valid, await a refresh answered by `refreshReply` and, if
     * it resolves, send the request once more (`retried`), answered by
     * `retry`; with refresh expired, tear the session down and return
     * undefined.
     */
    method RetryAfterExpiredAccess(refreshReply: RefreshReply, retry: FetchReply, now: int)
      returns (result: RequestResult, retried: bool, drove: bool)
      requires Valid()
      modifies this
      ensures Valid()
      ensures old(IsTokenExpired(Refresh, now)) ==>
                State() == TornDownState(old(State())) && result == Undefined && !retried && !drove
                && forall t :: !IsAuthenticated(t)
      ensures !old(IsTokenExpired(Refresh, now)) ==>
                State() == Awaited(old(State()), refreshReply, now)
                && drove == !old(isRefreshing)
                && match Outcome(refreshReply)
                   case RejectedWith(e) => result == Threw(RefreshError(e)) && !retried
                   case Resolved =>
                     retried && result == (if retry.Unreachable? then Threw(FetchError) else Response(retry.status, retry.code))
    {
      retried, drove := false, false;
      if !IsTokenExpired(Refresh, now) {
        var r;
        r, drove := RefreshAccessToken(refreshReply, now);
        if r.RejectedWith? {
          return Threw(RefreshError(r.error)), retried, drove;
        }
        retried := true;
        result := if retry.Unreachable? then Threw(FetchError) else Response(retry.status, retry.code);
      } else {
        HandleRefreshTokenExpired();
        result := Undefined;
      }
    }

    /**
     * makeAuthenticatedRequest(), against scripted replies: `refreshReplies`
     * answer the up-front refresh and the retry refresh, `replies` the first
     * request and its retry. `fetches` counts the protected requests issued,
     * `refreshCalls` the refresh calls this request itself drove.
     */
    method MakeAuthenticatedRequest(now: int, refreshReplies: seq<RefreshReply>, replies: seq<FetchReply>)
      returns (result: RequestResult, fetches: nat, refreshCalls: nat)
      requires Valid()
      requires |refreshReplies| >= 2 && |replies| >= 2
      modifies this
      ensures Valid()
      ensures fetches <= 2 && refreshCalls <= 2
      // a refresh call is issued by this request for the up-front refresh and for the retry, unless one is already in flight
      ensures refreshCalls ==
                (if old(IsTokenExpired(Access, now)) && !old(IsTokenExpired(Refresh, now)) && !old(isRefreshing) then 1 else 0)
                + (if fetches >= 1 && replies[0] == Http(Unauthorized, AccessExpiredCode) && !old(IsTokenExpired(Refresh, now))
                      && (old(IsTokenExpired(Access, now)) || !old(isRefreshing)) then 1 else 0)
      // the up-front refresh happens exactly when access has expired and refresh has not
      ensures old(IsTokenExpired(Access, now)) && !old(IsTokenExpired(Refresh, now)) ==>
                match Outcome(refreshReplies[0])
                case RejectedWith(RefreshTokenExpired) => result == Undefined && fetches == 0 && !isLogin
                case RejectedWith(e) => result == Threw(RefreshError(e)) && fetches == 0
                case Resolved =>
                  (fetches == 0 <==> !Truthy(refreshReplies[0].accessToken))
                  && (fetches == 0 ==> result == Threw(NoAccessToken))
      ensures !(old(IsTokenExpired(Access, now)) && !old(IsTokenExpired(Refresh, now))) ==>
                (fetches == 0 <==> !Truthy(old(accessToken)))
                && (fetches == 0 ==> result == Threw(NoAccessToken) && State() == old(State()))
      ensures result == Threw(NoAccessToken) ==> fetches == 0
      // the first request's reply decides the rest
      ensures fetches >= 1 && replies[0].Unreachable? ==> result == Threw(FetchError) && fetches == 1
      ensures fetches >= 1 && replies[0].Http? && replies[0] != Http(Unauthorized, AccessExpiredCode) ==>
                result == Response(replies[0].status, replies[0].code) && fetches == 1
      // a 401 access_token_expired: tear down if refresh has expired, else refresh once and retry once
      ensures fetches >= 1 && replies[0] == Http(Unauthorized, AccessExpiredCode) && old(IsTokenExpired(Refresh, now)) ==>
                result == Undefined && fetches == 1 && !isLogin && forall t :: !IsAuthenticated(t)
      ensures fetches >= 1 && replies[0] == Http(Unauthorized, AccessExpiredCode) && !old(IsTokenExpired(Refresh, now)) ==>
                match Outcome(refreshReplies[1])
                case RejectedWith(e) => result == Threw(RefreshError(e)) && fetches == 1
                case Resolved =>
                  fetches == 2
                  && result == (if replies[1].Unreachable? then Threw(FetchError)
                                else Response(replies[1].status, replies[1].code))
      ensures fetches == 2 ==> replies[0] == Http(Unauthorized, AccessExpiredCode) && !old(IsTokenExpired(Refresh, now))
      // the new session state: the up-front refresh, then the teardown or the retry refresh a 401 access_token_expired causes
      ensures var upFront := old(IsTokenExpired(Access, now)) && !old(IsTokenExpired(Refresh, now));
              var first := if upFront then Awaited(old(State()), refreshReplies[0], now) else old(State());
              State() == if fetches >= 1 && replies[0] == Http(Unauthorized, AccessExpiredCode)
                         then (if old(IsTokenExpired(Refresh, now)) then TornDownState(first)
                               else Awaited(first, refreshReplies[1], now))
                         else first
    {
      fetches, refreshCalls := 0, 0;
      var stop, drove := RefreshUpFront(refreshReplies[0], now);
      if drove { refreshCalls := 1; }
      if stop.Some? {
        return stop.value, fetches, refreshCalls;
      }
      if !Truthy(accessToken) {
        return Threw(NoAccessToken), fetches, refreshCalls;
      }
      var reply := replies[0];
      fetches := 1;
      if reply.Unreachable? {
        return Threw(FetchError), fetches, refreshCalls;
      }
      if reply.status == Unauthorized && reply.code == AccessExpiredCode {
        var retried;
        result, retried, drove := RetryAfterExpiredAccess(refreshReplies[1], replies[1], now);
        if drove { refreshCalls := refreshCalls + 1; }
        if retried { fetches := 2; }
        return;
      }
      result := Response(reply.status, reply.code);
    }

    /**
     * The body of one startTokenMonitor tick. It does nothing unless is_login
     * is set; then it tears down when refresh has expired, and otherwise starts
     * a refresh when access has expired and none is in flight. The refresh it
     * starts is left awaiting the server, to be finished by FinishRefresh.
     */
    method Tick(now: int) returns (action: TickAction)
      requires Valid()
      modifies this
      ensures Valid()
      ensures !old(isLogin) ==> action == Idle
      ensures old(isLogin) && old(IsTokenExpired(Refresh, now)) ==>
                action == TornDown && State() == TornDownState(old(State()))
      ensures old(isLogin) && !old(IsTokenExpired(Refresh, now)) && old(IsTokenExpired(Access, now)) && !old(isRefreshing) ==>
                action == StartedRefresh && State() == old(State()).(isRefreshing := true)
      ensures action == Idle ==> State() == old(State())
      ensures action == Idle <==>
                !old(isLogin) || (!old(IsTokenExpired(Refresh, now)) && (!old(IsTokenExpired(Access, now)) || old(isRefreshing)))
      ensures action == TornDown ==> !isLogin
    {
      action := Idle;
      if isLogin {
        if IsTokenExpired(Refresh, now) {
          HandleRefreshTokenExpired();
          action := TornDown;
        } else if IsTokenExpired(Access, now) && !isRefreshing {
          var s := StartRefresh(now);
          assert s == AwaitingNetwork;
          action := StartedRefresh;
        }
      }
    }
  }
}
