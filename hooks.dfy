/** The auth gate (src/hooks.server.ts): run on every request before
    routing, it turns the `adminSession` cookie into `locals.username`. */
module Hooks {
  import opened Js
  import opened SessionStore
  import opened Http

  /** The identity the gate publishes for a table and the request's cookie:
      a falsy (absent or empty) cookie is anonymous, a cookie naming a
      session is that session's user, and any other cookie is anonymous too,
      never an error. */
  function Identity(t: Table, cookie: Option<string>): (u: Option<string>)
    ensures cookie.None? || cookie == Some("") ==> u == None
    ensures cookie.Some? && cookie.value != "" && cookie.value in t ==> u == Some(t[cookie.value].username)
    ensures cookie.Some? && cookie.value != "" && cookie.value !in t ==> u == None
  {
    if cookie.Some? && cookie.value != "" then
      match Lookup(t, cookie.value)
      case Some(rec) => Some(rec.username)
      case None => None
    else
      None
  }

  /** The identity can only be a user some live session belongs to. */
  lemma IdentityIsSessionUser(t: Table, cookie: Option<string>)
    ensures Identity(t, cookie).Some? ==>
              exists id :: id in t && t[id].username == Identity(t, cookie).value
  {
    if Identity(t, cookie).Some? {
      assert cookie.value in t;
    }
  }

  /** The request-scoped `event.locals`. */
  class Locals {
    var username: Option<string>

    constructor ()
      ensures username == None
    {
      username := None;
    }
  }

  /** `handle`: sets `locals.username` on every branch, only reads the store
      (it has no right to modify it) and always hands the request on to
      `resolve`, whose result it returns unchanged. */
  method Handle<R>(store: Store, jar: CookieJar, locals: Locals, resolve: Option<string> -> R)
    returns (r: R)
    modifies locals
    ensures store.sessions == old(store.sessions)
    ensures locals.username == Identity(store.sessions, jar.Get(SessionCookie))
    ensures r == resolve(locals.username)
  {
    var sessionId := jar.Get(SessionCookie);
    if sessionId.Some? && sessionId.value != "" {
      var session := store.GetSession(sessionId.value);
      if session.Some? {
        locals.username := Some(session.value.username);
      } else {
        locals.username := None;
      }
    } else {
      locals.username := None;
    }
    r := resolve(locals.username);
  }
}
