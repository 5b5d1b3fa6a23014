/** What one call of an admin handler does: the response it sends, and the
    session table and the client's cookies after it. */
module Effects {
  import opened SessionStore
  import opened Http

  datatype Effect = Effect(response: Response, sessions: Table, cookies: Cookies)
}
