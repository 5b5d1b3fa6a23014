/** POST /api/admin-login (src/routes/api/admin-login/+server.ts): checks
    the submitted pair against the configured admin credentials and, on a
    match, opens a session and sets the session cookie. */
module AdminLogin {
  import opened Js
  import opened SessionStore
  import opened Http
  import opened Effects

  /** The insecure default used when a credential is not configured. */
  const DefaultCredential := "test"

  const MissingFieldsError := "username or password 정보 없음"
  const LoginFailedMessage := "로그인 실패"

  /** One hour, in seconds. */
  const SessionMaxAge := 60 * 60

  /** The attributes of the session cookie. */
  const SessionCookieOptions := CookieOptions(true, true, "/", Strict, SessionMaxAge)

  datatype Credentials = Credentials(id: string, password: string)

  /** `env || 'test'`: an empty configured value falls back to the default. */
  function OrDefault(env: string): (c: string)
    ensures c != ""
    ensures env != "" ==> c == env
    ensures env == "" ==> c == DefaultCredential
  {
    if env == "" then DefaultCredential else env
  }

  /** `AID` and `APW` from ADMIN_ID and ADMIN_PW. */
  function Configure(adminId: string, adminPw: string): (cred: Credentials)
    ensures cred.id != "" && cred.password != ""
    ensures cred.id == OrDefault(adminId) && cred.password == OrDefault(adminPw)
  {
    Credentials(OrDefault(adminId), OrDefault(adminPw))
  }

  /** Which branch of the handler a body takes. */
  datatype Decision = MissingFields | Mismatch | Accepted(username: string)

  /** The guard `!username || !password`, then the exact comparison
      `username === AID && password === APW`. */
  function Decide(cred: Credentials, body: Body): (d: Decision)
    ensures d.MissingFields? <==> !Truthy(Field(body, "username")) || !Truthy(Field(body, "password"))
    ensures d.Accepted? <==>
              Truthy(Field(body, "username")) && Truthy(Field(body, "password")) &&
              Field(body, "username") == Str(cred.id) && Field(body, "password") == Str(cred.password)
    ensures d.Accepted? ==> d.username == cred.id
  {
    var username := Field(body, "username");
    var password := Field(body, "password");
    if !Truthy(username) || !Truthy(password) then MissingFields
    else if username == Str(cred.id) && password == Str(cred.password) then Accepted(cred.id)
    else Mismatch
  }

  /** What the handler does, as a function of the table and cookies before
      it: 200 exactly when the pair is accepted, 400 for a missing field and
      401 for a mismatch; only the 200 sets a cookie, every other answer
      leaves table and cookies as they were, and the only id that can be
      added to the table is the hash of the configured admin id. */
  function LoginSpec(cred: Credentials, idOf: Hash, t: Table, c: Cookies, body: Body, now: int): (e: Effect)
    ensures e.response.status == 200 <==> Decide(cred, body).Accepted?
    ensures e.response.status == 400 <==> Decide(cred, body).MissingFields?
    ensures e.response.status == 401 <==> Decide(cred, body).Mismatch?
    ensures e.response.cookie.Some? <==> e.response.status == 200
    ensures e.response.status != 200 ==> e.sessions == t && e.cookies == c
    ensures e.sessions.Keys <= t.Keys + {idOf(cred.id)}
  {
    match Decide(cred, body)
    case MissingFields =>
      Effect(Response(400, ErrorBody(MissingFieldsError), None), t, c)
    case Mismatch =>
      Effect(Response(401, SuccessBody(false, Some(LoginFailedMessage)), None), t, c)
    case Accepted(u) =>
      var action := SetCookie(SessionCookie, idOf(u), SessionCookieOptions);
      Effect(Response(200, SuccessBody(true, None), Some(action)),
             Created(t, idOf(u), u, now), ApplyCookie(c, action))
  }

  /** The handler. */
  method Post(cred: Credentials, store: Store, jar: CookieJar, body: Body, now: int)
    returns (resp: Response)
    modifies store, jar
    ensures Effect(resp, store.sessions, jar.cookies)
            == LoginSpec(cred, store.idOf, old(store.sessions), old(jar.cookies), body, now)
  {
    var username := Field(body, "username");
    var password := Field(body, "password");
    if !Truthy(username) || !Truthy(password) {
      return Response(400, ErrorBody(MissingFieldsError), None);
    }
    if username == Str(cred.id) && password == Str(cred.password) {
      var sessionId := store.CreateSession(username.s, now);
      var action := SetCookie(SessionCookie, sessionId, SessionCookieOptions);
      jar.Apply(action);
      return Response(200, SuccessBody(true, None), Some(action));
    }
    return Response(401, SuccessBody(false, Some(LoginFailedMessage)), None);
  }

  /** A missing or falsy field is a 400 with an error body: no session is
      created and no cookie is set. */
  lemma MissingFieldsRejected(cred: Credentials, idOf: Hash, t: Table, c: Cookies, body: Body, now: int)
    requires !Truthy(Field(body, "username")) || !Truthy(Field(body, "password"))
    ensures var e := LoginSpec(cred, idOf, t, c, body, now);
            e.response == Response(400, ErrorBody(MissingFieldsError), None)
            && e.sessions == t && e.cookies == c
  {
  }

  /** The exact configured pair opens a session for that user and answers
      200 with `{success: true}` and an HttpOnly, Secure, SameSite=Strict
      cookie on path `/` that lives 3600 seconds and carries the session id. */
  lemma MatchAccepted(cred: Credentials, idOf: Hash, t: Table, c: Cookies, body: Body, now: int)
    requires cred.id != "" && cred.password != ""
    requires Field(body, "username") == Str(cred.id) && Field(body, "password") == Str(cred.password)
    ensures var e := LoginSpec(cred, idOf, t, c, body, now);
            && e.response.status == 200
            && e.response.body == SuccessBody(true, None)
            && e.response.cookie == Some(SetCookie(SessionCookie, idOf(cred.id), SessionCookieOptions))
            && e.sessions == t[idOf(cred.id) := SessionRecord(cred.id, now)]
            && e.cookies == c[SessionCookie := idOf(cred.id)]
  {
  }

  /** With nothing configured, `test` / `test` logs in. */
  lemma DefaultCredentialsLogIn()
    ensures Decide(Configure("", ""), map["username" := Str("test"), "password" := Str("test")]).Accepted?
  {
  }

  /** The session cookie's attributes. */
  lemma SessionCookieAttributes()
    ensures SessionCookieOptions.httpOnly && SessionCookieOptions.secure
    ensures SessionCookieOptions.path == "/" && SessionCookieOptions.sameSite == Strict
    ensures SessionCookieOptions.maxAge == 3600
  {
  }

  /** Any other pair with both fields present is a 401 and changes nothing. */
  lemma MismatchRejected(cred: Credentials, idOf: Hash, t: Table, c: Cookies, body: Body, now: int)
    requires Truthy(Field(body, "username")) && Truthy(Field(body, "password"))
    requires Field(body, "username") != Str(cred.id) || Field(body, "password") != Str(cred.password)
    ensures var e := LoginSpec(cred, idOf, t, c, body, now);
            e.response == Response(401, SuccessBody(false, Some(LoginFailedMessage)), None)
            && e.sessions == t && e.cookies == c
  {
  }

  /** The failure answer does not tell which field was wrong: two rejected
      bodies get the very same response, whatever the table and the time. */
  lemma FailureIsUniform(cred: Credentials, idOf: Hash, t1: Table, t2: Table, c1: Cookies, c2: Cookies,
                         b1: Body, b2: Body, now1: int, now2: int)
    requires Decide(cred, b1).Mismatch? && Decide(cred, b2).Mismatch?
    ensures LoginSpec(cred, idOf, t1, c1, b1, now1).response == LoginSpec(cred, idOf, t2, c2, b2, now2).response
  {
  }

  /** After a successful login, the cookie the client now holds names a
      session of the submitted user. */
  lemma LoginThenLookup(cred: Credentials, idOf: Hash, t: Table, c: Cookies, body: Body, now: int)
    requires Decide(cred, body).Accepted?
    ensures var e := LoginSpec(cred, idOf, t, c, body, now);
            && GetCookie(e.cookies, SessionCookie) == Some(idOf(cred.id))
            && Lookup(e.sessions, idOf(cred.id)) == Some(SessionRecord(Field(body, "username").s, now))
  {
  }
}
