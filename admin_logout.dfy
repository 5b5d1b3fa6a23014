/** POST /api/admin-logout (src/routes/api/admin-logout/+server.ts): deletes
    the session named by the cookie and clears the cookie. */
module AdminLogout {
  import opened Js
  import opened SessionStore
  import opened Http
  import opened Effects

  const NoSessionMessage := "세션 없음"

  /** The cookie clearing sent on a successful logout. */
  const ClearSessionCookie := DeleteCookie(SessionCookie, "/")

  /** What the handler does, as a function of the table and cookies before
      it: 200 exactly when the client sends a non-empty session cookie, 400
      otherwise with nothing changed; a 200 leaves the client without the
      cookie, and no call adds a session. */
  function LogoutSpec(t: Table, c: Cookies): (e: Effect)
    ensures e.response.status == 200 <==> SessionCookie in c && c[SessionCookie] != ""
    ensures e.response.status != 200 ==> e.response.status == 400 && e.sessions == t && e.cookies == c
    ensures e.response.status == 200 ==> SessionCookie !in e.cookies
    ensures e.sessions.Keys <= t.Keys
  {
    var sessionId := GetCookie(c, SessionCookie);
    if sessionId.None? || sessionId.value == "" then
      Effect(Response(400, SuccessBody(false, Some(NoSessionMessage)), None), t, c)
    else
      Effect(Response(200, SuccessBody(true, None), Some(ClearSessionCookie)),
             Deleted(t, sessionId.value), ApplyCookie(c, ClearSessionCookie))
  }

  /** The handler. */
  method Post(store: Store, jar: CookieJar) returns (resp: Response)
    modifies store, jar
    ensures Effect(resp, store.sessions, jar.cookies) == LogoutSpec(old(store.sessions), old(jar.cookies))
  {
    var sessionId := jar.Get(SessionCookie);
    if sessionId.None? || sessionId.value == "" {
      return Response(400, SuccessBody(false, Some(NoSessionMessage)), None);
    }
    store.DeleteSession(sessionId.value);
    jar.Apply(ClearSessionCookie);
    return Response(200, SuccessBody(true, None), Some(ClearSessionCookie));
  }

  /** No cookie, or an empty one: 400 with `{success: false}`, nothing
      deleted and no cookie touched. */
  lemma NoCookieRejected(t: Table, c: Cookies)
    requires SessionCookie !in c || c[SessionCookie] == ""
    ensures LogoutSpec(t, c) == Effect(Response(400, SuccessBody(false, Some(NoSessionMessage)), None), t, c)
  {
  }

  /** With a cookie: that session is gone, every other session is kept, the
      cookie is deleted on path `/`, and the answer is 200 `{success: true}`. */
  lemma CookieLogsOut(t: Table, c: Cookies)
    requires SessionCookie in c && c[SessionCookie] != ""
    ensures var id := c[SessionCookie];
            var e := LogoutSpec(t, c);
            && e.response == Response(200, SuccessBody(true, None), Some(DeleteCookie(SessionCookie, "/")))
            && id !in e.sessions
            && (forall other :: other in t && other != id ==> other in e.sessions && e.sessions[other] == t[other])
            && e.sessions.Keys == t.Keys - {id}
            && SessionCookie !in e.cookies
  {
  }

  /** A cookie naming no session still succeeds, and leaves the table as it was. */
  lemma UnknownSessionSucceeds(t: Table, c: Cookies)
    requires SessionCookie in c && c[SessionCookie] != "" && c[SessionCookie] !in t
    ensures LogoutSpec(t, c).response.status == 200 && LogoutSpec(t, c).sessions == t
  {
  }

  /** Logging out twice in a row: the first call clears the cookie, so the
      second one finds none and is rejected with 400, although deleting the
      session itself would have been harmless to repeat. */
  lemma SecondLogoutRejected(t: Table, c: Cookies)
    requires SessionCookie in c && c[SessionCookie] != ""
    ensures var e := LogoutSpec(t, c);
            LogoutSpec(e.sessions, e.cookies).response.status == 400
  {
  }
}
