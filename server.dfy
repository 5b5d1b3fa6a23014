/** The admin handlers run one after another against one session table and
    one client's cookies, each as a single atomic step, and what that
    guarantees about the table and about the identity the gate publishes. */
module Server {
  import opened Js
  import opened SessionStore
  import opened Http
  import opened Effects
  import opened Hooks
  import opened AdminLogin
  import opened AdminLogout

  /** A request that reaches one of the admin handlers. */
  datatype Request =
    | LoginRequest(body: Body, now: int)
    | LogoutRequest

  datatype State = State(sessions: Table, cookies: Cookies)

  function Step(cred: Credentials, idOf: Hash, s: State, req: Request): State
  {
    var e := match req
      case LoginRequest(body, now) => LoginSpec(cred, idOf, s.sessions, s.cookies, body, now)
      case LogoutRequest => LogoutSpec(s.sessions, s.cookies);
    State(e.sessions, e.cookies)
  }

  function Run(cred: Credentials, idOf: Hash, s: State, reqs: seq<Request>): State
    decreases |reqs|
  {
    if reqs == [] then s else Run(cred, idOf, Step(cred, idOf, s, reqs[0]), reqs[1..])
  }

  /** Every live session is the admin's, stored under the hash of the
      configured admin id. */
  ghost predicate AdminOnly(cred: Credentials, idOf: Hash, t: Table)
  {
    forall id :: id in t ==> id == idOf(cred.id) && t[id].username == cred.id
  }

  lemma StepKeepsAdminOnly(cred: Credentials, idOf: Hash, s: State, req: Request)
    requires AdminOnly(cred, idOf, s.sessions)
    ensures AdminOnly(cred, idOf, Step(cred, idOf, s, req).sessions)
  {
  }

  /** Whatever sequence of logins and logouts runs, starting from a table
      of admin sessions, the table holds admin sessions only. */
  lemma {:induction false} RunKeepsAdminOnly(cred: Credentials, idOf: Hash, s: State, reqs: seq<Request>)
    requires AdminOnly(cred, idOf, s.sessions)
    ensures AdminOnly(cred, idOf, Run(cred, idOf, s, reqs).sessions)
    decreases |reqs|
  {
    if reqs != [] {
      StepKeepsAdminOnly(cred, idOf, s, reqs[0]);
      RunKeepsAdminOnly(cred, idOf, Step(cred, idOf, s, reqs[0]), reqs[1..]);
    }
  }

  /** Because the id is a function of the username and only the admin can
      log in, the table never holds more than one session. */
  lemma AdminOnlyAtMostOne(cred: Credentials, idOf: Hash, t: Table)
    requires AdminOnly(cred, idOf, t)
    ensures |t| <= 1
  {
    assert t.Keys <= {idOf(cred.id)};
    if idOf(cred.id) in t {
      assert t.Keys == {idOf(cred.id)};
    } else {
      assert t.Keys == {};
    }
  }

  /** From a fresh process, any run leaves at most one session, and the gate
      can name nobody but the admin, whatever cookie a request carries. */
  lemma {:induction false} FreshRunIdentity(cred: Credentials, idOf: Hash, c: Cookies, reqs: seq<Request>,
                                            cookie: Option<string>)
    ensures |Run(cred, idOf, State(map[], c), reqs).sessions| <= 1
    ensures Identity(Run(cred, idOf, State(map[], c), reqs).sessions, cookie) in {None, Some(cred.id)}
  {
    var t := Run(cred, idOf, State(map[], c), reqs).sessions;
    RunKeepsAdminOnly(cred, idOf, State(map[], c), reqs);
    AdminOnlyAtMostOne(cred, idOf, t);
  }

  /** A successful login is seen by the gate on the next request: the cookie
      the client now holds resolves to the user who logged in. */
  lemma LoginThenGate(cred: Credentials, idOf: Hash, s: State, body: Body, now: int)
    requires Decide(cred, body).Accepted?
    ensures var s' := Step(cred, idOf, s, LoginRequest(body, now));
            Identity(s'.sessions, GetCookie(s'.cookies, SessionCookie)) == Some(cred.id)
  {
    DigestNonEmpty(idOf(cred.id));
  }

  /** The session id can be computed from the username alone: once the admin
      has logged in, a request from anyone that carries the hash of the admin
      id as its cookie is taken for the admin. */
  lemma ForgedCookieAccepted(cred: Credentials, idOf: Hash, s: State, body: Body, now: int)
    requires Decide(cred, body).Accepted?
    ensures var s' := Step(cred, idOf, s, LoginRequest(body, now));
            Identity(s'.sessions, Some(idOf(cred.id))) == Some(cred.id)
  {
    DigestNonEmpty(idOf(cred.id));
  }

  /** After a logout, the gate resolves the id that was in the cookie to
      nobody, even if the old cookie is sent again. */
  lemma LogoutThenGate(cred: Credentials, idOf: Hash, s: State)
    requires SessionCookie in s.cookies && s.cookies[SessionCookie] != ""
    ensures var s' := Step(cred, idOf, s, LogoutRequest);
            && Identity(s'.sessions, Some(s.cookies[SessionCookie])) == None
            && Identity(s'.sessions, GetCookie(s'.cookies, SessionCookie)) == None
  {
  }

  /** A rejected login leaves the table as it was, so the number of sessions
      does not change. */
  lemma FailedLoginKeepsTable(cred: Credentials, idOf: Hash, s: State, body: Body, now: int)
    requires !Decide(cred, body).Accepted?
    ensures Step(cred, idOf, s, LoginRequest(body, now)) == s
  {
  }
}
