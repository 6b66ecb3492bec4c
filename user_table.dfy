/**
 * The in-memory user table of simple_viewer.py: the module-level dict
 * `users_db` and the register, login and logout endpoints that use it.
 *
 * A request body is a map from field names to strings; a field that is
 * absent from the JSON is absent from the map. Python iterates a dict in
 * insertion order, and login by e-mail or phone takes the first match in
 * that order, so the table keeps its keys' insertion order beside the map.
 */
module UserTable {
  import opened Wrappers

  /** One stored user; the table keys it by its login. */
  datatype User = User(username: string, email: string, tel: string, password: string)

  type Request = map<string, string>

  datatype ApiError = MissingField(field: string) | LoginTaken | EmailTaken | BadCredentials

  /** An endpoint's reply: the token lifetimes it announces, an error with its HTTP status, or the logout message. */
  datatype Reply =
    | Issued(accessExpiresIn: int, refreshExpiresIn: int)
    | Rejected(status: int, error: ApiError)
    | LoggedOut

  /** Lifetime of an access token, in seconds (one hour). */
  const AccessExpiresIn: int := 3600
  /** Lifetime of a refresh token, in seconds (thirty days). */
  const RefreshExpiresIn: int := 2592000
  const BadRequest: int := 400
  const Unauthorized: int := 401
  const RequiredFields: seq<string> := ["username", "login", "email", "password"]

  /** Python truthiness of `data.get(field)` for a string field: present and non-empty. */
  predicate Present(req: Request, field: string)
  {
    field in req && req[field] != ""
  }

  predicate AllPresent(req: Request)
  {
    Present(req, "username") && Present(req, "login") && Present(req, "email") && Present(req, "password")
  }

  lemma AllPresentIsEveryField(req: Request)
    ensures AllPresent(req) <==> forall i :: 0 <= i < |RequiredFields| ==> Present(req, RequiredFields[i])
  {
    assert RequiredFields[0] == "username" && RequiredFields[1] == "login";
    assert RequiredFields[2] == "email" && RequiredFields[3] == "password";
  }

  /** The position of the first field that is missing or empty, or |fields| when there is none. */
  function FirstMissing(req: Request, fields: seq<string>): (i: nat)
    ensures i <= |fields|
    ensures i < |fields| ==> !Present(req, fields[i])
    ensures forall j :: 0 <= j < i ==> Present(req, fields[j])
  {
    if fields == [] || !Present(req, fields[0]) then 0
    else 1 + FirstMissing(req, fields[1..])
  }

  predicate EmailInUse(users: map<string, User>, email: string)
  {
    exists k :: k in users && users[k].email == email
  }

  /** The user api_register stores for a request; `tel` defaults to the empty string. */
  function NewUser(req: Request): User
    requires AllPresent(req)
  {
    User(req["username"], req["email"], if "tel" in req then req["tel"] else "", req["password"])
  }

  /**
   * What api_register answers for a request against the table `users`:
   * the first missing required field, then a taken login, then a taken
   * e-mail, each with status 400; otherwise the two token lifetimes.
   */
  function RegisterVerdict(users: map<string, User>, req: Request): (r: Reply)
    ensures r.Issued? || (r.Rejected? && r.status == BadRequest)
    ensures r.Issued? ==> r == Issued(AccessExpiresIn, RefreshExpiresIn)
    ensures forall i :: 0 <= i < |RequiredFields| ==>
              (r == Rejected(BadRequest, MissingField(RequiredFields[i])) <==>
                 !Present(req, RequiredFields[i]) && forall j :: 0 <= j < i ==> Present(req, RequiredFields[j]))
    ensures r == Rejected(BadRequest, LoginTaken) <==> AllPresent(req) && req["login"] in users
    ensures r == Rejected(BadRequest, EmailTaken) <==>
              AllPresent(req) && req["login"] !in users && EmailInUse(users, req["email"])
    ensures r.Issued? <==> AllPresent(req) && req["login"] !in users && !EmailInUse(users, req["email"])
  {
    var i := FirstMissing(req, RequiredFields);
    AllPresentIsEveryField(req);
    if i < |RequiredFields| then Rejected(BadRequest, MissingField(RequiredFields[i]))
    else if req["login"] in users then Rejected(BadRequest, LoginTaken)
    else if EmailInUse(users, req["email"]) then Rejected(BadRequest, EmailTaken)
    else Issued(AccessExpiresIn, RefreshExpiresIn)
  }

  /**
   * The table invariant: `order` lists every key exactly once, no two users
   * share an e-mail, and every stored login, username, e-mail and password is
   * non-empty (register stores only requests that passed validation).
   */
  ghost predicate WellFormed(users: map<string, User>, order: seq<string>)
  {
    && (forall i, j :: 0 <= i < j < |order| ==> order[i] != order[j])
    && (forall i :: 0 <= i < |order| ==> order[i] in users)
    && (forall k :: k in users ==> k in order)
    && (forall k, k' :: k in users && k' in users && k != k' ==> users[k].email != users[k'].email)
    && (forall k :: k in users ==> k != "" && users[k].username != "" && users[k].email != "" && users[k].password != "")
  }

  datatype Field = Email | Tel

  function FieldOf(u: User, f: Field): string
  {
    match f
    case Email => u.email
    case Tel => u.tel
  }

  predicate Matches(users: map<string, User>, key: string, f: Field, value: string)
  {
    key in users && FieldOf(users[key], f) == value
  }

  /** The position of the first key, in `keys` order, whose user has `value` in field `f`; |keys| when none has. */
  function FirstWith(users: map<string, User>, keys: seq<string>, f: Field, value: string): (i: nat)
    ensures i <= |keys|
    ensures i < |keys| ==> Matches(users, keys[i], f, value)
    ensures forall j :: 0 <= j < i ==> !Matches(users, keys[j], f, value)
  {
    if keys == [] || Matches(users, keys[0], f, value) then 0
    else 1 + FirstWith(users, keys[1..], f, value)
  }

  /** The first stored user, in registration order, whose field `f` equals `value`. */
  function FindBy(users: map<string, User>, order: seq<string>, f: Field, value: string): Option<User>
  {
    var i := FirstWith(users, order, f, value);
    if i < |order| then Some(users[order[i]]) else None
  }

  /** The user api_login selects: by login if given, else by e-mail, else by phone. */
  function Lookup(users: map<string, User>, order: seq<string>, req: Request): Option<User>
  {
    if Present(req, "login") then Get(users, req["login"])
    else if Present(req, "email") then FindBy(users, order, Email, req["email"])
    else if Present(req, "phone") then FindBy(users, order, Tel, req["phone"])
    else None
  }

  /** Whether the stored user `u` under key `login` is the one the request's identifying field names. */
  predicate Identifies(req: Request, login: string, u: User)
  {
    if Present(req, "login") then login == req["login"]
    else if Present(req, "email") then u.email == req["email"]
    else Present(req, "phone") && u.tel == req["phone"]
  }

  /**
   * api_login: succeeds with the token lifetimes exactly when a user is
   * selected and the request's password equals the stored one; otherwise
   * 401. A success always names a stored user with that password whom the
   * request's identifying field designates.
   */
  function Login(users: map<string, User>, order: seq<string>, req: Request): (r: Reply)
    ensures r == Issued(AccessExpiresIn, RefreshExpiresIn) || r == Rejected(Unauthorized, BadCredentials)
    ensures r.Issued? ==>
              exists k :: k in users && Get(req, "password") == Some(users[k].password) && Identifies(req, k, users[k])
    ensures Present(req, "login") ==>
              (r.Issued? <==> req["login"] in users && Get(req, "password") == Some(users[req["login"]].password))
    ensures !Present(req, "login") && !Present(req, "email") && !Present(req, "phone") ==> r.Rejected?
  {
    var user := Lookup(users, order, req);
    if user.Some? && Get(req, "password") == Some(user.value.password) then
      var k := if Present(req, "login") then req["login"]
               else order[FirstWith(users, order, if Present(req, "email") then Email else Tel,
                                    if Present(req, "email") then req["email"] else req["phone"])];
      assert k in users && users[k] == user.value && Identifies(req, k, users[k]);
      Issued(AccessExpiresIn, RefreshExpiresIn)
    else
      Rejected(Unauthorized, BadCredentials)
  }

  /** With unique e-mails, login by e-mail succeeds exactly for the user who owns that e-mail. */
  lemma {:induction false} EmailLoginFindsOwner(users: map<string, User>, order: seq<string>, req: Request)
    requires WellFormed(users, order)
    requires !Present(req, "login") && Present(req, "email")
    ensures Login(users, order, req).Issued? <==>
              exists k :: k in users && users[k].email == req["email"] && Get(req, "password") == Some(users[k].password)
  {
    var email := req["email"];
    var i := FirstWith(users, order, Email, email);
    if k :| k in users && users[k].email == email && Get(req, "password") == Some(users[k].password) {
      var p :| 0 <= p < |order| && order[p] == k;
      assert Matches(users, order[p], Email, email);
      assert i <= p;
      assert order[i] == k;
    }
  }

  /**
   * Phone numbers are not unique: login by phone selects the first user, in
   * registration order, whose phone matches, and succeeds only with that
   * user's password.
   */
  lemma PhoneLoginTakesEarliest(users: map<string, User>, order: seq<string>, req: Request)
    requires !Present(req, "login") && !Present(req, "email") && Present(req, "phone")
    ensures Login(users, order, req).Issued? <==>
              exists i :: 0 <= i < |order| && Matches(users, order[i], Tel, req["phone"])
                          && (forall j :: 0 <= j < i ==> !Matches(users, order[j], Tel, req["phone"]))
                          && Get(req, "password") == Some(users[order[i]].password)
  {
    var i := FirstWith(users, order, Tel, req["phone"]);
    if j :| 0 <= j < |order| && Matches(users, order[j], Tel, req["phone"])
            && (forall j' :: 0 <= j' < j ==> !Matches(users, order[j'], Tel, req["phone"]))
            && Get(req, "password") == Some(users[order[j]].password) {
      assert i == j;
    }
  }

  /** Stored passwords are non-empty, so a request with a missing or empty password never logs in. */
  lemma EmptyPasswordNeverLogsIn(users: map<string, User>, order: seq<string>, req: Request)
    requires WellFormed(users, order)
    requires !Present(req, "password")
    ensures Login(users, order, req) == Rejected(Unauthorized, BadCredentials)
  {
  }

  /** A successful register keeps the table invariant: in particular e-mails stay unique. */
  lemma {:induction false} RegisterKeepsWellFormed(users: map<string, User>, order: seq<string>, req: Request)
    requires WellFormed(users, order)
    requires RegisterVerdict(users, req).Issued?
    ensures WellFormed(users[req["login"] := NewUser(req)], order + [req["login"]])
  {
    var login := req["login"];
    var users' := users[login := NewUser(req)];
    var order' := order + [login];
    assert login !in order;
    forall k, k' | k in users' && k' in users' && k != k'
      ensures users'[k].email != users'[k'].email
    {
      if k == login {
        assert users'[k'] == users[k'];
      } else if k' == login {
        assert users'[k] == users[k];
      }
    }
    forall k | k in users'
      ensures k in order'
    {
      if k != login {
        assert k in order;
      }
    }
  }

  /**
   * Register followed by login: the new user can log in with the login and
   * password it registered, and (e-mails being unique) with its e-mail and
   * password.
   */
  lemma {:induction false} RegisterThenLogin(users: map<string, User>, order: seq<string>, req: Request)
    requires WellFormed(users, order)
    requires RegisterVerdict(users, req).Issued?
    ensures var users', order' := users[req["login"] := NewUser(req)], order + [req["login"]];
            && Login(users', order', map["login" := req["login"], "password" := req["password"]]).Issued?
            && Login(users', order', map["email" := req["email"], "password" := req["password"]]).Issued?
  {
    var login := req["login"];
    var users', order' := users[login := NewUser(req)], order + [login];
    RegisterKeepsWellFormed(users, order, req);
    var byEmail := map["email" := req["email"], "password" := req["password"]];
    EmailLoginFindsOwner(users', order', byEmail);
    assert login in users' && users'[login].email == byEmail["email"];
  }

  /** The users_db dict with its keys' insertion order. */
  class UserDb {
    var users: map<string, User>
    var order: seq<string>

    ghost predicate Valid()
      reads this
    {
      WellFormed(users, order)
    }

    constructor ()
      ensures Valid() && users == map[] && order == []
    {
      users := map[];
      order := [];
    }

    /**
     * api_register: answers RegisterVerdict; on success it adds exactly one
     * entry, keyed by the login, and the new user can then log in.
     */
    method Register(req: Request) returns (reply: Reply)
      requires Valid()
      modifies this
      ensures Valid()
      ensures reply == RegisterVerdict(old(users), req)
      ensures reply.Issued? ==>
                users == old(users)[req["login"] := NewUser(req)] && order == old(order) + [req["login"]]
      ensures !reply.Issued? ==> users == old(users) && order == old(order)
      ensures reply.Issued? ==>
                Login(users, order, map["login" := req["login"], "password" := req["password"]]).Issued?
    {
      var i := 0;
      while i < |RequiredFields|
        invariant 0 <= i <= |RequiredFields|
        invariant forall j :: 0 <= j < i ==> Present(req, RequiredFields[j])
      {
        if !Present(req, RequiredFields[i]) {
          return Rejected(BadRequest, MissingField(RequiredFields[i]));
        }
        i := i + 1;
      }
      AllPresentIsEveryField(req);
      var login := req["login"];
      if login in users {
        return Rejected(BadRequest, LoginTaken);
      }
      if EmailInUse(users, req["email"]) {
        return Rejected(BadRequest, EmailTaken);
      }
      RegisterThenLogin(users, order, req);
      RegisterKeepsWellFormed(users, order, req);
      users := users[login := NewUser(req)];
      order := order + [login];
      reply := Issued(AccessExpiresIn, RefreshExpiresIn);
    }

    /** api_logout: always succeeds, and it cannot touch the table. */
    method Logout() returns (reply: Reply)
      ensures reply == LoggedOut
    {
      reply := LoggedOut;
    }
  }
}
