/** The part of the SvelteKit request and response surface the admin
    handlers use: the cookie jar behind `cookies.get`, `cookies.set` and
    `cookies.delete`, and JSON responses with a status. */
module Http {
  import opened Js

  /** The name of the session cookie. */
  const SessionCookie := "adminSession"

  datatype SameSite = Strict | Lax | NoSameSite

  datatype CookieOptions = CookieOptions(
    httpOnly: bool,
    secure: bool,
    path: string,
    sameSite: SameSite,
    maxAge: int)

  /** The Set-Cookie a handler emits. */
  datatype CookieAction =
    | SetCookie(name: string, value: string, options: CookieOptions)
    | DeleteCookie(name: string, path: string)

  /** The JSON bodies the handlers return. */
  datatype ResponseBody =
    | ErrorBody(error: string)
    | SuccessBody(success: bool, message: Option<string>)
    | MessageBody(value: JsValue)  // `{ message: value }`

  datatype Response = Response(status: int, body: ResponseBody, cookie: Option<CookieAction>)

  /** The cookies the client holds and sends, by name. */
  type Cookies = map<string, string>

  /** `cookies.get(name)`. */
  function GetCookie(c: Cookies, name: string): Option<string>
  {
    if name in c then Some(c[name]) else None
  }

  /** The cookies after the client has applied a Set-Cookie. */
  function ApplyCookie(c: Cookies, a: CookieAction): Cookies
  {
    match a
    case SetCookie(name, value, _) => c[name := value]
    case DeleteCookie(name, _) => c - {name}
  }

  /** The request's cookie jar. */
  class CookieJar {
    var cookies: Cookies

    constructor (cookies: Cookies)
      ensures this.cookies == cookies
    {
      this.cookies := cookies;
    }

    function Get(name: string): Option<string>
      reads this
    {
      GetCookie(cookies, name)
    }

    /** `cookies.set(...)`, or `cookies.delete(...)`, as the action says. */
    method Apply(a: CookieAction)
      modifies this
      ensures cookies == ApplyCookie(old(cookies), a)
    {
      match a
      case SetCookie(name, value, _) =>
        cookies := cookies[name := value];
      case DeleteCookie(name, _) =>
        cookies := cookies - {name};
    }
  }
}
