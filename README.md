# Session manager and user table, modelled in Dafny

This project models the two pieces of sequential logic in the InsightRoom front end:

- **`AuthService`** (static/JS/auth.js) is the browser-side session manager. It keeps one expiry instant per token kind (`access`, `refresh`) in localStorage and answers `isTokenExpired` and `isAuthenticated` from them. It coordinates refreshes of the access token so that only one refresh call is in flight: later callers wait in `failedQueue` and all settle with the driver's outcome. It tears the session down when the refresh token is dead, wraps protected requests in an up-front refresh plus at most one refresh-and-retry, and runs a once-a-minute monitor gated by `is_login`.
- **`users_db`** (simple_viewer.py) is the Flask server's in-memory user table, together with its register, login and logout endpoints.

Files:

- `wrappers.dfy`: module `Wrappers`, holding `Option` and a map lookup.
- `auth_service.dfy`: module `AuthClient`, the class `AuthService`. Its fields are `store` (expiry instants, keyed `<kind>_token_expiry`), `saved` (the token strings in localStorage), `accessToken`, `refreshToken`, `isRefreshing`, `queue` (the waiting promises), `isLogin`, and three bookkeeping fields:
  - `nextWaiter` gives each queued promise its identity;
  - `settled` records how each queued promise settled;
  - `notices` counts the re-authentication notices shown.

  `State()` packs all fields into one `Snapshot`, so each method can state its whole new state. `Valid()` is the object invariant: the waiter queue is non-empty only while `isRefreshing` holds, and queued promises are distinct and still pending.
- `auth_scenarios.dfy`: module `AuthScenarios`. It builds event-loop runs from the step methods (a burst of concurrent refreshes, and requests against scripted servers), and it models the page's `handleLogin` feeding the monitor.
- `user_table.dfy`: module `UserTable`. Register and login are specified as functions over the table. Class `UserDb` holds `users_db` and the insertion order of its keys. Python iterates a dict in insertion order, and login by e-mail or phone takes the first match.

Clock, network and storage:

- The clock `Date.now()` is the parameter `now`.
- Every network round trip is a reply parameter.
- localStorage is two maps. Expiry instants are stored as integers, so `toString`/`parseInt` is the identity.

`refreshAccessToken` has one suspension point that matters, the `await fetch('api/refresh')`. At that point it splits into `StartRefresh(now)` and `FinishRefresh(reply, now)`:

- `StartRefresh(now)` runs up to the fetch and ends `Enqueued`, `FailedExpired` or `AwaitingNetwork`.
- `FinishRefresh(reply, now)` runs after the server's reply.

An interleaving of refresh calls is then a sequence of `StartRefresh` and `FinishRefresh` calls on one object, as `ConcurrentRefreshes` uses them. `RefreshAccessToken` is one call awaited to completion: if a refresh is already in flight, that refresh finishes first, and the queued caller resumes right after it. `MakeAuthenticatedRequest` and the other scenarios use it. They model no other interleaving (see "Left out").

Three behaviours of the code a reader might not expect:

- `login()` does not set `is_login`, and no page ever runs the token monitor with `is_login` set (see "Findings").
- On the retry path of `makeAuthenticatedRequest`, a `REFRESH_TOKEN_EXPIRED` from the refresh is thrown to the caller. It is not swallowed.
- With both tokens expired, `makeAuthenticatedRequest` does not refresh: it still sends the request with the current access token.

## Model

| member | source | states |
|---|---|---|
| AuthClient.ExpiryKeyInjective | static/JS/auth.js:44-47 | distinct token kinds have distinct expiry keys, so writing one kind's expiry never touches another's |
| AuthClient.Outcome | static/JS/auth.js:89-97 | a refresh resolves exactly on an ok reply; it fails with REFRESH_TOKEN_EXPIRED exactly when the server's error is `refresh_token_expired`, and with REFRESH_FAILED for any other server error |
| AuthClient.SettleAll | static/JS/auth.js:84-86 | draining the queue settles every listed waiter with the one outcome and leaves every other promise's settlement as it was |
| AuthClient.AuthService.constructor | static/JS/auth.js:2-8 | both tokens are read from localStorage; nothing is in flight, the queue is empty and `is_login` is false |
| AuthClient.AuthService.IsTokenExpired | static/JS/auth.js:49-53 | expired when the key is absent, and when present exactly from the stored instant on (equality counts as expired); a pure read |
| AuthClient.AuthService.IsAuthenticated | static/JS/auth.js:215-217 | true exactly when some token kind has a stored expiry that lies in the future |
| AuthClient.AuthService.SetTokenExpiry | static/JS/auth.js:44-47 | stores exactly `now + n*1000` under `kind + "_token_expiry"`; afterwards the kind is expired exactly from that instant on, and every other kind's expiry answers as before |
| AuthClient.AuthService.SetTokens | static/JS/auth.js:37-42 | both token fields take the given values and localStorage holds their string forms (`"undefined"` for an absent token) |
| AuthClient.AuthService.Login | static/JS/auth.js:10-35 | an accepted reply stores both tokens and both expiry instants and returns true; any other reply returns false and changes nothing; `is_login` is never set |
| AuthClient.AuthService.Logout | static/JS/auth.js:192-213 | both tokens become null, `is_login` false, the four localStorage keys are removed, after which the session is not authenticated at any instant; the server is notified only when the access token was truthy |
| AuthClient.AuthService.HandleRefreshTokenExpired | static/JS/auth.js:113-126 | logout's state, plus exactly one more re-authentication notice |
| AuthClient.AuthService.SettleEach | static/JS/auth.js:85 | the forEach over the queue, one waiter at a time, yields exactly the settlements SettleAll describes |
| AuthClient.AuthService.Drain | static/JS/auth.js:99-101 | every queued promise settles with the given outcome, in queue order, and the queue ends empty; the invariant is kept |
| AuthClient.AuthService.StartRefresh | static/JS/auth.js:55-70 | while a refresh is in flight it appends exactly one fresh waiter and changes nothing else (no network call); otherwise with an expired refresh token it fails with REFRESH_TOKEN_EXPIRED before any network call, tears down once and clears the flag; otherwise it only sets the flag and awaits the server |
| AuthClient.AuthService.StoreAccessToken | static/JS/auth.js:80-82 | the new access token is kept in the object and in localStorage, and its expiry is `now + access_expires_in*1000`; the invariant is kept |
| AuthClient.AuthService.RefreshSucceeded | static/JS/auth.js:78-88 | after an ok reply: the new access token and its expiry are stored, every waiter resolves, the queue empties and the flag clears; nothing else changes |
| AuthClient.AuthService.RefreshRejected | static/JS/auth.js:98-110 | on any error: every waiter is rejected with that error, the queue empties and the flag clears; the session is torn down once exactly when the error is REFRESH_TOKEN_EXPIRED, and otherwise nothing else changes |
| AuthClient.AuthService.FinishRefresh | static/JS/auth.js:71-111 | the driver's outcome is the reply's; the new state is `AfterReply`: every queued waiter settles with that same outcome, the queue ends empty and the flag false; success stores the new access token and `now + access_expires_in*1000`; REFRESH_TOKEN_EXPIRED tears down exactly once; other failures leave the session as it was |
| AuthClient.AfterReplySettlesQueue | static/JS/auth.js:78-109 | once the server answers the refresh in flight, nothing is in flight, the queue is empty, and every queued promise settles with the one outcome the driver gets |
| AuthClient.AfterReplySession | static/JS/auth.js:78-109 | the server's answer: on success the new access token in the object and in localStorage, its expiry `now + access_expires_in*1000`, and the rest of the session kept; on REFRESH_TOKEN_EXPIRED both tokens and both expiries removed, `is_login` cleared, exactly one more notice; on any other failure no session field changes |
| AuthClient.AwaitedSession | static/JS/auth.js:55-111 | the same three outcomes hold for an awaited refresh that reaches the server, whether the caller drove it or was queued behind the driver |
| AuthClient.QueuedCallerSettlesWithDriver | static/JS/auth.js:57-101 | a caller that arrives while a refresh is in flight gets the driver's outcome, as does every promise queued before it, and nothing is left in flight |
| AuthClient.AuthService.RefreshAccessToken | static/JS/auth.js:55-111 | awaited to completion, the caller gets the refresh outcome whether it drove or waited; it drove the network call exactly when nothing was in flight and refresh had not expired; the whole new state is the teardown (refresh expired, nothing in flight) or `Awaited` (otherwise); after REFRESH_TOKEN_EXPIRED the session is unauthenticated at every instant |
| AuthClient.AuthService.RefreshUpFront | static/JS/auth.js:151-162 | with access expired and refresh valid, awaits one refresh (state `Awaited`) and stops the request with undefined on REFRESH_TOKEN_EXPIRED, or with the error otherwise; in any other case changes nothing; when it does not stop, refresh expiry is as before |
| AuthClient.AuthService.RetryAfterExpiredAccess | static/JS/auth.js:177-186 | refresh expired: tears down once, returns undefined, no retry; refresh valid: awaits one refresh (state `Awaited`); on failure throws its error; on success retries once and returns the retry's response |
| AuthClient.AuthService.MakeAuthenticatedRequest | static/JS/auth.js:150-190 | refreshes up front exactly when access has expired and refresh has not; returns undefined on REFRESH_TOKEN_EXPIRED; throws "No access token" exactly when the token is falsy, including after a refresh that resolved with one; issues at most two requests, retrying only after a 401 `access_token_expired` with a valid refresh token; on such a 401 with an expired refresh token it tears down and returns undefined; it counts its own refresh calls exactly; the whole new state is the up-front refresh's, then the teardown or the retry refresh's, and otherwise unchanged |
| AuthClient.AuthService.Tick | static/JS/auth.js:220-230 | does nothing unless `is_login`; otherwise tears down when refresh has expired, else starts a refresh (left awaiting the server) when access has expired and none is in flight, else does nothing; after a teardown `is_login` is false, so later ticks do nothing |
| AuthScenarios.ServerLoginReply | simple_viewer.py:80-84 | the server's login reply is accepted and announces a shorter access than refresh lifetime |
| AuthScenarios.ClientLoginAsWrittenRejected | static/JS/auth.js:12-18 | login() as written posts `{ username, password }`; api_login answers every such body with 401 |
| AuthScenarios.ClientLoginAfterRegister | simple_viewer.py:71-84 | a body carrying the login under `login` lets a user who has just registered log in and receive both lifetimes |
| AuthScenarios.ConcurrentRefreshes | static/JS/auth.js:55-111 | for any number of callers arriving while one refresh is in flight, exactly one refresh call reaches the network (none when refresh has already expired), counted per call, and every caller observes the first caller's outcome |
| AuthScenarios.ExpiredAccessIsRefreshedFirst | static/JS/auth.js:150-172 | access expired and refresh valid: exactly one refresh, then one request, whose response is returned |
| AuthScenarios.RetriesOnceAfterExpiredAccess | static/JS/auth.js:172-189 | a 401 `access_token_expired` with refresh valid: exactly one refresh and one retry, whose response is returned |
| AuthScenarios.HandleLoginAsWritten | static/JS/auth.js:240-252 | the page's login handler as written: the login's result is returned and the service's `is_login` is unchanged |
| AuthScenarios.HandleLogin | static/JS/auth.js:240-252 | the handler with the one-line fix `authService.is_login = success`: a successful login sets the login page's service's `is_login` |
| AuthScenarios.MonitorAfterLoginAsWritten | static/JS/auth.js:220-248 | after a login through the handler as written and the redirect to `/dashboard`, the dashboard's tick one hour later does nothing although access has expired |
| AuthScenarios.MonitorOnPageLoad | static/JS/auth.js:220-237 | a page's service is built from localStorage with `is_login` false, and nothing on the page sets it, so every tick at any instant does nothing and changes nothing, whatever localStorage holds |
| AuthScenarios.MonitorAfterOneLineFix | static/JS/auth.js:220-248 | with the one-line fix in the handler, the flag is set on the login page's service; after the redirect, the dashboard's tick one hour later still does nothing |
| AuthScenarios.MonitorAfterLogin | static/JS/auth.js:220-248 | as intended, with `is_login` set on the page that runs the monitor: after login and the redirect, the tick one hour later starts a refresh, a tick at refresh expiry tears the session down, and the next tick does nothing |
| UserTable.FirstMissing | simple_viewer.py:28-31 | the index of the first required field that is missing or empty; every field before it is present |
| UserTable.RegisterVerdict | simple_viewer.py:27-53 | api_register reports field i missing exactly when it is the first of username, login, email, password that is absent or empty; it then rejects a taken login before a taken e-mail, both with 400; otherwise it answers with `access_expires_in = 3600` and `refresh_expires_in = 2592000` |
| UserTable.FirstWith | simple_viewer.py:74-76 | the first key in registration order whose user has the value in the given field, and no earlier key does |
| UserTable.Login | simple_viewer.py:64-95 | api_login answers the two lifetimes or 401; by login it succeeds exactly when the login is stored and the password equals; a success always names a stored user with that password whom the login, else the e-mail, else the phone designates; with none of the three it fails |
| UserTable.EmailLoginFindsOwner | simple_viewer.py:73-79 | with unique e-mails, login by e-mail succeeds exactly when some user owns that e-mail and has the given password |
| UserTable.PhoneLoginTakesEarliest | simple_viewer.py:75-79 | login by phone selects the earliest registered user with that phone and succeeds only with that user's password |
| UserTable.EmptyPasswordNeverLogsIn | simple_viewer.py:79 | stored passwords are non-empty, so a missing or empty password never logs in |
| UserTable.RegisterKeepsWellFormed | simple_viewer.py:34-46 | a successful register keeps the table invariant: no two users share an e-mail, every key is listed once in insertion order, stored fields are non-empty |
| UserTable.RegisterThenLogin | simple_viewer.py:41-46 | after a successful register the new user can log in by login and password, and by e-mail and password |
| UserTable.UserDb.constructor | simple_viewer.py:8 | the table starts empty and well-formed |
| UserTable.UserDb.Register | simple_viewer.py:23-59 | answers RegisterVerdict; on success adds exactly one entry, keyed by login, with `tel` defaulting to `''`, all other entries unchanged; on any error the table is unchanged; the invariant is kept |
| UserTable.UserDb.Logout | simple_viewer.py:97-102 | always succeeds and cannot touch the table |

## Findings

| source | as written | input that shows it | evidently intended | confidence | as-written member | corrected member |
|---|---|---|---|---|---|---|
| static/JS/auth.js:247 | the token monitor never acts on any page. Every page load builds a new service whose `is_login` starts false (line 7). The only assignment that could set it (line 247) writes to the handler's own receiver, not to `authService`, and line 248 then navigates to `/dashboard`. | log in through the page form, then the dashboard's monitor ticks one hour later, with access expired and refresh valid: the tick is idle | the page that runs the monitor has `is_login` set for a logged-in session, so its ticks refresh expired access tokens and tear down dead sessions. Writing `authService.is_login = success` at line 247 alone is not enough, because the redirect discards that service. | high; not executed | AuthScenarios.MonitorAfterLoginAsWritten | AuthScenarios.MonitorAfterLogin |
| static/JS/auth.js:17 | login() posts `{ username, password }`, but api_login (simple_viewer.py:71-76) looks a user up only by `login`, `email` or `phone`, so every login through this client gets 401 | register a user with login `u` and password `p`, then call login(`u`, `p`): api_login finds no identifying field and answers 401 | the body carries the user's login under `login` (`{ login: username, password }`) | high; not executed | AuthScenarios.ClientLoginAsWrittenRejected | AuthScenarios.ClientLoginAfterRegister |

## Left out

- Network and DOM:
  - `fetch` calls, JSON parsing and `Authorization: Bearer` headers are not modelled. A network result is an explicit reply parameter, and a fetch that rejects is `Unreachable`.
  - A 401 body that is not JSON is not modelled.
  - `showReauthenticationRequired` is modelled only as the `notices` count.
  - The delayed redirect to `/login?reason=session_expired` is not modelled.
  - The logout notification request is modelled only as the `notified` result.
- The timer: `setInterval`, `startTokenMonitor` wiring and `DOMContentLoaded` are left out. Only the body of one tick is modelled.
- Page glue: `handleLogout`, `fetchProtectedData` and `checkAuth` are left out. `handleLogin` is modelled only for its effect on `is_login` and for the redirect to `/dashboard` (auth.js:248). That redirect is a new page load: a new service built from the same localStorage, with `is_login` false. So a flag set on the login page is lost, and no page ever runs the monitor with `is_login` set.
- Promise machinery: fetch and the following `response.json()` are one step, because the driver changes no state between them. In `RefreshAccessToken`, the in-flight driver always finishes immediately before a queued caller resumes. Other refresh schedules can be written only with `StartRefresh` and `FinishRefresh`.
- AuthClient.AuthService.MakeAuthenticatedRequest runs its awaits as one uninterrupted step. These are the first `fetch`, its `response.json()`, the retry `refreshAccessToken` and the retry `fetch`. No monitor tick, logout or other request can run between them. So the model does not capture a teardown or a token change made by another task before the re-read of `isTokenExpired('refresh')` (auth.js:178) or of `this.accessToken` (auth.js:180).
- AuthClient.AuthService.MakeAuthenticatedRequest reads the clock once per call. The source reads `Date.now()` afresh after each await.
- AuthClient.AuthService.MakeAuthenticatedRequest takes server replies from scripts of two entries each. This is a modelling device, not a demand of the source.
- Storage values: expiry instants are integers, so `parseInt` of a non-numeric value (NaN) is not modelled. Token values are strings or absent.
- simple_viewer.py:
  - Flask routing, templates and the favicon handler are left out.
  - Cookie setting and message texts are left out.
  - The catch-all `except` that answers 500 is left out: no JSON body, a non-dict body, or an exception inside the handler.
  - Request field values are strings, so the truthiness of numbers, `null` or lists is not modelled.
