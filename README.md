# Admin sessions, auth gate and page logic of a personal web site, in Dafny

The site is a SvelteKit server whose routes mostly forward to a hosted
database. The few parts with logic of their own are modelled here:

- the in-memory **session store**: a process-wide map from session id to
  `{username, createdAt}`. The id is computed deterministically as the hex
  SHA-256 digest of the username. The hash is the store's parameter `idOf`
  (any function into 64-character lowercase hex strings). It is never assumed
  injective;
- the **auth gate** (`handle` hook), which turns the `adminSession` cookie
  into `locals.username` on every request and never rejects one;
- the **login** and **logout** handlers. Each is a sequential step over the
  store and the client's cookies that returns a response: status, JSON body
  and an optional Set-Cookie action;
- the **music list** built by the home page's `load`, as pure functions over
  the two directory listings. The JavaScript `replace` (first occurrence
  only), `split`, `trim`, `startsWith` and `find` are modelled exactly,
  including the lookup of a missing artist under the text "undefined";
- the **birthday note**, one mutable message cell with GET and POST.

Imperative parts are classes with `modifies` clauses: `SessionStore.Store`,
`Http.CookieJar`, `Hooks.Locals` and `Birthday.Note`. Each handler method is
tied by its postcondition to a pure function of the state before it
(`AdminLogin.LoginSpec`, `AdminLogout.LogoutSpec`). The lemmas are stated
about those functions. Module `Server` runs any sequence of logins and
logouts through them. It proves that the table only ever holds admin
sessions, so at most one session exists, and that the gate can never name
anyone but the admin.

Where the comments and the code disagree, the model follows the code. The
comment at `src/routes/api/admin-login/+server.ts:14` calls the session id
random. `src/lib/server/sessionStore.ts:12` derives it from the username.
`Server.ForgedCookieAccepted` states the consequence.

Logout answers 400 when the cookie is missing or empty. It clears the cookie
only when one was sent. So a second logout right after a successful one is
rejected (`AdminLogout.SecondLogoutRejected`), although the deletion itself
is idempotent.

Inputs that the code reads from outside become parameters:

- `Date.now()` is the parameter `now`.
- `ADMIN_ID` and `ADMIN_PW` are the arguments of `AdminLogin.Configure`.
- The directory reads are the sequences `musicDir` and `thumbnailDir`.
- A parsed JSON body is a `map<string, JsValue>`, and a missing member reads
  as `undefined`. The handlers read only `username`, `password` and
  `message`. No number, string, boolean or array has a property of any of
  those names, so destructuring such a body gives `undefined` for all three
  and the model covers it as `map[]`: login then answers 400 and the
  birthday POST stores `undefined`.
- The cookie jar is the map of cookies the client holds.

## Model

| member | source | states |
|---|---|---|
| `SessionStore.Lookup` | src/lib/server/sessionStore.ts:18-21 | the lookup yields a record exactly when the id is a key, and then the stored record |
| `SessionStore.Created` | src/lib/server/sessionStore.ts:13 | the table after `sessions.set(id, {username, createdAt: now})` |
| `SessionStore.Deleted` | src/lib/server/sessionStore.ts:26 | the table after `sessions.delete(id)` |
| `SessionStore.DigestNonEmpty` | src/lib/server/sessionStore.ts:12 | a hex digest is never empty, so a session id is always a truthy cookie value |
| `SessionStore.LookupAfterCreate` | src/lib/server/sessionStore.ts:11-21 | right after creating a session for `u`, looking up `idOf(u)` gives the record `{u, now}` |
| `SessionStore.CreateFrame` | src/lib/server/sessionStore.ts:13 | creating changes only the entry at the new id; the key set grows by that id alone |
| `SessionStore.CreateTwiceOverwrites` | src/lib/server/sessionStore.ts:12-13 | the same username always gets the same id; a second create overwrites the record and the table does not grow |
| `SessionStore.CollisionTakesOver` | src/lib/server/sessionStore.ts:12-13 | with a colliding hash, the second user's create takes over the first user's id |
| `SessionStore.LookupAfterDelete` | src/lib/server/sessionStore.ts:25-26 | after deleting an id it is absent, and every other id looks up as before |
| `SessionStore.DeleteAbsentIsNoop` | src/lib/server/sessionStore.ts:26 | deleting a missing id leaves the table unchanged, so deleting twice is deleting once |
| `SessionStore.Store.constructor` | src/lib/server/sessionStore.ts:8 | the map starts empty |
| `SessionStore.Store.CreateSession` | src/lib/server/sessionStore.ts:11-15 | returns `idOf(username)` and sets that entry to `{username, now}`, nothing else |
| `SessionStore.Store.GetSession` | src/lib/server/sessionStore.ts:18-22 | returns the record iff the id is present, modifying nothing |
| `SessionStore.Store.DeleteSession` | src/lib/server/sessionStore.ts:25-27 | the new map is the old one without the id |
| `Http.GetCookie` | src/hooks.server.ts:6 | `cookies.get(name)`: the value the client sent under that name, or `undefined` |
| `Http.ApplyCookie` | src/routes/api/admin-login/+server.ts:20-26 | the client's cookies after a Set-Cookie: set stores the value under its name, delete removes the name |
| `Http.CookieJar.Get` | src/hooks.server.ts:6 | `cookies.get('adminSession')` on the request's jar: the value the client holds under the name, or `undefined` |
| `Http.CookieJar.Apply` | src/routes/api/admin-login/+server.ts:20-26 | setting a cookie stores its value under its name; deleting removes the name |
| `Hooks.Identity` | src/hooks.server.ts:6-17 | an absent or empty cookie gives null; a cookie naming a session gives its username; any other cookie gives null |
| `Hooks.IdentityIsSessionUser` | src/hooks.server.ts:9-11 | a non-null identity is the username of some live session |
| `Hooks.Handle` | src/hooks.server.ts:5-20 | sets `locals.username` to the identity of the cookie and leaves the store unchanged; returns exactly what `resolve` returns |
| `AdminLogin.OrDefault` | src/routes/api/admin-login/+server.ts:6-7 | an empty configured value falls back to `'test'`; a non-empty one is kept |
| `AdminLogin.Configure` | src/routes/api/admin-login/+server.ts:4-7 | both credentials are non-empty and each is its configured value or the fallback |
| `Js.Truthy` | src/routes/api/admin-login/+server.ts:11 | JavaScript truthiness: `undefined`, `null`, `false`, `0` and `""` are falsy |
| `Js.Field` | src/routes/api/admin-login/+server.ts:10 | destructuring a body member: a missing member is `undefined` |
| `AdminLogin.Decide` | src/routes/api/admin-login/+server.ts:10-18 | a falsy field means missing fields; acceptance holds iff both fields are exactly the configured strings |
| `AdminLogin.LoginSpec` | src/routes/api/admin-login/+server.ts:9-31 | 200 iff accepted, 400 iff a field is missing, 401 iff mismatched; a cookie only with 200; any other answer changes nothing; the only id that can be added is `idOf(AID)` |
| `AdminLogin.DefaultCredentialsLogIn` | src/routes/api/admin-login/+server.ts:6-7 | with nothing configured, the pair `test`/`test` is accepted |
| `AdminLogin.Post` | src/routes/api/admin-login/+server.ts:9-31 | response, new table and new cookies are those of `LoginSpec` on the old state |
| `AdminLogin.MissingFieldsRejected` | src/routes/api/admin-login/+server.ts:11-12 | a missing or falsy field gives 400 with the error body; no session and no cookie |
| `AdminLogin.MatchAccepted` | src/routes/api/admin-login/+server.ts:18-28 | the exact pair gives 200 `{success:true}`, a session `{AID, now}` at `idOf(AID)`, and the cookie set to that id |
| `AdminLogin.SessionCookieAttributes` | src/routes/api/admin-login/+server.ts:20-26 | the cookie is HttpOnly and Secure, has path `/` and SameSite=Strict, and lives 3600 seconds |
| `AdminLogin.MismatchRejected` | src/routes/api/admin-login/+server.ts:30 | any other present pair gives 401 `{success:false, message}`; table and cookies unchanged |
| `AdminLogin.FailureIsUniform` | src/routes/api/admin-login/+server.ts:30 | any two rejected bodies get identical responses, whichever field was wrong |
| `AdminLogin.LoginThenLookup` | src/routes/api/admin-login/+server.ts:19-20 | after success the client's cookie is `idOf(AID)`, and looking it up gives the submitted username |
| `AdminLogout.LogoutSpec` | src/routes/api/admin-logout/+server.ts:6-13 | 200 iff the client sends a non-empty session cookie, otherwise 400 with nothing changed; after a 200 the client has no session cookie; no session is ever added |
| `AdminLogout.Post` | src/routes/api/admin-logout/+server.ts:6-13 | response, new table and new cookies are those of `LogoutSpec` on the old state |
| `AdminLogout.NoCookieRejected` | src/routes/api/admin-logout/+server.ts:7-8 | an absent or empty cookie gives 400 `{success:false}`; table and cookies unchanged, no cookie action |
| `AdminLogout.CookieLogsOut` | src/routes/api/admin-logout/+server.ts:10-12 | with a cookie: that session is removed and every other kept, the cookie is deleted on path `/`, and the answer is 200 `{success:true}` |
| `AdminLogout.UnknownSessionSucceeds` | src/routes/api/admin-logout/+server.ts:10-12 | a cookie naming no session still gets 200, and the table is unchanged |
| `AdminLogout.SecondLogoutRejected` | src/routes/api/admin-logout/+server.ts:8-11 | a logout right after a successful one finds no cookie and gets 400 |
| `MusicPage.Mp3Files` | src/routes/+page.server.ts:12 | a name is kept iff it is listed and ends in `.mp3` |
| `MusicPage.Mp3FilesAppend` | src/routes/+page.server.ts:12 | the filter distributes over concatenation, so listing order is kept |
| `MusicPage.FindThumbnail` | src/routes/+page.server.ts:19 | the result is the first thumbnail that starts with the prefix; none means no thumbnail does |
| `MusicPage.BaseName` | src/routes/+page.server.ts:17 | the name with its first `.mp3` removed; a name ending in `.mp3` gets four characters shorter |
| `MusicPage.ArtistPart` | src/routes/+page.server.ts:18 | the second `-`-separated piece, absent exactly when the name has no `-` |
| `MusicPage.ArtistProbe` | src/routes/+page.server.ts:19 | what `startsWith` receives: the untrimmed artist, or the text "undefined" when it is missing |
| `MusicPage.ThumbnailFor` | src/routes/+page.server.ts:19-20 | the path is always a listed thumbnail name under `/thumbnail/` or the fallback |
| `MusicPage.MakeItem` | src/routes/+page.server.ts:16-27 | an item's `src` is `/music/` plus the original file name, and its artist is `'Unknown'` when the name has no `-` |
| `MusicPage.MapItems` | src/routes/+page.server.ts:16-28 | one item per file, item `i` built from file `i` |
| `MusicPage.Load` | src/routes/+page.server.ts:7-33 | the page data holds exactly one item per `.mp3` file, in listing order, each served from `/music/` by that file's name |
| `MusicPage.LoadSources` | src/routes/+page.server.ts:12-25 | every item comes from a listed `.mp3` file, and every such file has an item |
| `MusicPage.ItemTitle` | src/routes/+page.server.ts:17-23 | the title is the trimmed text before the first `-` of the name stripped of its first `.mp3` |
| `MusicPage.ArtistPartAt` | src/routes/+page.server.ts:18 | the artist piece is the text between the first and second `-`; there is none without a `-` |
| `MusicPage.ItemArtist` | src/routes/+page.server.ts:17-24 | the artist is that piece trimmed, or `'Unknown'` when the name has no `-` |
| `MusicPage.ThumbnailFirstMatch` | src/routes/+page.server.ts:19-20 | the first thumbnail starting with the untrimmed artist, if it is non-empty, gives `/thumbnail/` plus its name |
| `MusicPage.ThumbnailFallback` | src/routes/+page.server.ts:19-20 | with no thumbnail starting with the probe, the path is `/thumbnail/none.jpg` |
| `MusicPage.MissingArtistProbesUndefined` | src/routes/+page.server.ts:18-20 | with no `-`, the artist is `'Unknown'`, and the first thumbnail starting with "undefined" is picked |
| `MusicPage.UntrimmedArtistMisses` | src/routes/+page.server.ts:18-20 | an artist with leading whitespace matches no thumbnail that starts with a non-space |
| `JsString.StartsWith` | src/routes/+page.server.ts:19 | `t.startsWith(p)`: `t` is at least as long as `p` and begins with exactly the characters of `p`, so the empty text is a prefix of every name |
| `JsString.EndsWith` | src/routes/+page.server.ts:12 | `f.endsWith('.mp3')`: the last four characters of `f` are `.mp3` |
| `JsString.IndexOf` | src/routes/+page.server.ts:17 | the result is the first position where the pattern occurs; none means it occurs nowhere |
| `JsString.RemoveFirst` | src/routes/+page.server.ts:17 | `replace` with an empty replacement: without an occurrence the name is unchanged, and with one it is shorter by the pattern's length |
| `JsString.ReplaceOnlySuffix` | src/routes/+page.server.ts:17 | a name whose only `.mp3` is its suffix loses exactly that suffix |
| `JsString.ReplaceRemovesFirstOnly` | src/routes/+page.server.ts:17 | only the first occurrence is removed; later ones stay |
| `JsString.Split` | src/routes/+page.server.ts:18 | the split has at least one piece, so the title is always defined; no piece holds the separator |
| `JsString.JoinSplit` | src/routes/+page.server.ts:18 | joining the pieces with the separator gives back the string |
| `JsString.SplitJoin` | src/routes/+page.server.ts:18 | splitting a join of separator-free pieces gives back the pieces |
| `JsString.FirstIndex` | src/routes/+page.server.ts:18 | the result is the position of the first occurrence of the character, or the length when there is none |
| `JsString.SplitAtFirst` | src/routes/+page.server.ts:18 | the first piece is the text before the first separator; the rest is the split of what follows it |
| `JsString.IsWhitespace` | src/routes/+page.server.ts:23-24 | the characters `trim` removes: ECMAScript WhiteSpace (tab, vertical tab, form feed, space, no-break space, byte order mark, every space separator) plus LineTerminator (line feed, carriage return, line separator, paragraph separator) |
| `JsString.TrimStart` | src/routes/+page.server.ts:23-24 | the result is a suffix; all dropped characters are whitespace; it does not start with whitespace |
| `JsString.TrimEnd` | src/routes/+page.server.ts:23-24 | the result is a prefix; all dropped characters are whitespace; it does not end with whitespace |
| `JsString.Trim` | src/routes/+page.server.ts:23-24 | the trimmed text neither starts nor ends with whitespace |
| `JsString.TrimIsSlice` | src/routes/+page.server.ts:23-24 | the trimmed text is the slice of the input starting at the trim offset |
| `JsString.TrimDropsLeadingWhitespace` | src/routes/+page.server.ts:23-24 | everything before that slice is whitespace |
| `JsString.TrimDropsTrailingWhitespace` | src/routes/+page.server.ts:23-24 | everything after that slice is whitespace |
| `JsString.TrimIdempotent` | src/routes/+page.server.ts:23-24 | trimming twice is trimming once |
| `Birthday.Note.constructor` | src/routes/api/birthday/+server.ts:5 | the message starts as the initial birthday text |
| `Birthday.Note.Get` | src/routes/api/birthday/+server.ts:7-9 | answers `{message}` with the stored message and changes nothing |
| `Birthday.Note.Post` | src/routes/api/birthday/+server.ts:11-15 | stores the body's `message` as it is, even `undefined`, and echoes it |
| `Birthday.FirstGet` | src/routes/api/birthday/+server.ts:5-8 | before any POST, GET answers with the initial message |
| `Birthday.LastWriteWins` | src/routes/api/birthday/+server.ts:7-14 | after two POSTs, GET answers with what the second echoed; the last write wins |
| `Server.Step` | src/routes/api/admin-login/+server.ts:9-31 | one request as an atomic step on the table and the client's cookies: a login goes through `LoginSpec`, a logout (src/routes/api/admin-logout/+server.ts:6-13) through `LogoutSpec` |
| `Server.Run` | src/routes/api/admin-logout/+server.ts:6-13 | a sequence of requests applied through `Step` in order, each either a logout or a login (src/routes/api/admin-login/+server.ts:9-31) |
| `Server.StepKeepsAdminOnly` | src/routes/api/admin-login/+server.ts:18-19 | one login or logout keeps "every session is the admin's, under `idOf(AID)`" |
| `Server.RunKeepsAdminOnly` | src/routes/api/admin-login/+server.ts:18-19 | any sequence of logins and logouts keeps it |
| `Server.AdminOnlyAtMostOne` | src/lib/server/sessionStore.ts:12-13 | a table of admin sessions under the hashed id has at most one entry |
| `Server.FreshRunIdentity` | src/hooks.server.ts:9-13 | from an empty table, any run leaves at most one session, and the gate resolves any cookie to null or the admin |
| `Server.LoginThenGate` | src/routes/api/admin-login/+server.ts:19-20 | after a successful login, the gate resolves the client's cookie to the admin |
| `Server.ForgedCookieAccepted` | src/lib/server/sessionStore.ts:12 | after the admin logs in, any request carrying `idOf(AID)` is taken for the admin |
| `Server.LogoutThenGate` | src/routes/api/admin-logout/+server.ts:10 | after logout, the old id and the client's cookie both resolve to null |
| `Server.FailedLoginKeepsTable` | src/routes/api/admin-login/+server.ts:30 | a login that is not accepted leaves table and cookies unchanged |

## Left out

- Concurrency and `async`: each handler is one atomic step. Requests that
  overlap are not modelled; the code has no synchronisation to model.
- The SHA-256 function itself: any digest-valued function stands in for it.
- Session expiry: `createdAt` is stored and never read. The cookie's
  `maxAge` is recorded as a value, and the client's expiry of the cookie is
  not modelled.
- Request bodies that make the handler throw: text that is not JSON (the
  parse fails) and the JSON `null` (destructuring it throws). SvelteKit
  answers both with an error. Every other body is modelled as above.
- `JsString.RemoveFirst`: models `String.prototype.replace` with a string
  pattern and an empty replacement only, which is the one use here. The
  `$` patterns of a replacement string do not arise and are not modelled.
- `json(...)` serialisation: a stored `undefined` birthday message is kept as
  `Undefined`. The model does not show that `JSON.stringify` drops the key.
- Strings are sequences of Unicode scalar values, not UTF-16 code units.
  For well-formed strings no result modelled here depends on the
  difference. The patterns of `replace`, `split` and `endsWith` are ASCII,
  and every whitespace character of `trim` is a single BMP code unit. For
  `startsWith`, with an artist that may be any text, a code-unit prefix of
  a well-formed string that is itself well-formed is also a prefix in scalar
  values, and the converse holds too. Directory entries arrive as
  well-formed strings.
- Lone surrogates: JSON text such as `"\ud800"` parses to a string that is
  not well-formed and is not a Dafny `string`. The birthday POST
  (src/routes/api/birthday/+server.ts:12-14) stores and echoes such a
  message, and the model cannot represent that value. In a login body such a
  string is truthy and cannot equal the admin id or password taken from the
  environment, so it draws the 401 that any other non-matching string draws.
- `Hooks.Handle`: `resolve` is given the published identity rather than
  the whole request event.
- `src/routes/+layout.server.ts` only passes `locals.username` on and
  registers the `admin:decision` dependency.
- The photo and comment routes only wrap the hosted database client, which
  is not part of this model.
