# uwu.land link shortener — a Dafny model of the worker's request handler

uwu.land is a URL shortener that runs as a Cloudflare Worker. Its only state is
the KV namespace `UwU`, which maps a slug (the short id) to a target URL. The
worker answers four kinds of request:

- **POST `/`** takes a JSON body `{ url, id? }` and validates it. `url` must pass
  the URL check. `id`, if given, is trimmed and must be 3 to 16 characters from
  `[A-Za-z0-9_-]`.
- A `url` containing `uwu.land` is refused (400).
- A caller-supplied id that is already in use is refused (409).
- Without an id, the worker draws 5-character ids from `nanoid` until one is free.
- On success it stores `id -> url` and answers 201 with `{ id, url: "http://uwu.land/" + id }`.
- **GET `/<slug>`** takes the fourth `/`-separated piece of the decoded request URL.
  With no slug it redirects to `https://app.uwu.land`. For an unbound slug it
  redirects to `https://app.uwu.land/404`. Otherwise it redirects to the stored target.
- **OPTIONS** answers 200 with an empty body.
- **Every other method** answers 405 "Method not allowed".

The model has two modules:

- `JsString` (`js_string.dfy`): the JavaScript string built-ins the handler uses.
  - `trim` removes ECMAScript white space and line terminators at both ends.
  - `includes` is proved equivalent to "occurs at some index".
  - `split` on a one-character separator is proved inverse to joining.
- `Server` (`server.dfy`): the worker itself.
  - The store is a `map<string, string>`.
  - `Post`, `Resolve` and `Handle` are pure specifications of the three handlers.
  - The class `Worker` holds the store in a field. Its `HandlePost` method runs the
    draw loop and updates the map in place. It is proved equal to `Post`.
  - `Fetch` dispatches on the method and is proved equal to `Handle`.

The self-reference check is a substring test for `uwu.land` anywhere in the URL,
not a comparison of the host.

JavaScript truthiness is modelled. A KV lookup that returns the empty string counts as
"not in use" in the 409 check, in the draw loop and in GET (`InUse`). The URL check
rejects the empty string, so a stored target is never empty. Lemmas that depend on
this take `!isUrl("")` as a hypothesis.

## Model

| member | source | states |
|---|---|---|
| `JsString.IsWhitespace` | server/src/index.ts:13 | the character set `trim` removes (ECMAScript WhiteSpace and LineTerminator); within ASCII it is exactly tab, line feed, vertical tab, form feed, carriage return and space |
| `JsString.TrimStart` | server/src/index.ts:13 | the result is the suffix left after removing leading white space only, and it does not start with white space |
| `JsString.TrimEnd` | server/src/index.ts:13 | the result is the prefix left after removing trailing white space only, and it does not end with white space |
| `JsString.Trim` | server/src/index.ts:13 | the trimmed id is empty or starts and ends with non-white-space |
| `JsString.TrimInfix` | server/src/index.ts:13 | trimming yields an infix `s[i..j]` of the input with only white space outside it |
| `JsString.TrimFixed` | server/src/index.ts:13 | a string is its own trim if and only if it is empty or has non-white-space at both ends |
| `JsString.TrimIdempotent` | server/src/index.ts:13 | trimming twice is trimming once |
| `JsString.Contains` | server/src/index.ts:103 | `url.includes(sub)`: true when `sub` is a prefix of some suffix of `url`; `ContainsIff` characterises it |
| `JsString.ContainsIff` | server/src/index.ts:103 | `url.includes(sub)` holds if and only if `sub` occurs at some index of `url` |
| `JsString.NotContainsFirstChar` | server/src/index.ts:103 | a string without the first character of `sub` does not include `sub` |
| `JsString.ContainsInside` | server/src/index.ts:103 | `a + sub + b` includes `sub` |
| `JsString.Split` | server/src/index.ts:63 | `split("/")` yields at least one piece, no piece holds the separator, and joining the pieces gives back the input |
| `JsString.SplitJoin` | server/src/index.ts:63 | splitting a join of separator-free pieces gives back the pieces (the other half of the inverse pair) |
| `JsString.SplitWithoutSeparator` | server/src/index.ts:63 | a string without the separator splits into itself alone |
| `JsString.SplitAfterPiece` | server/src/index.ts:63 | splitting `p + "/" + t` gives `p` followed by the pieces of `t` |
| `JsString.JoinAppend` | server/src/index.ts:63 | joining two runs of pieces is joining each with a separator between |
| `Server.IsIdChar` | server/src/index.ts:16 | a character of `[\w\-]`; such a character is ASCII, never white space and never `/` |
| `Server.IsIdentifier` | server/src/index.ts:16 | the id pattern `^[\w\-]{3,16}$`: 3 to 16 characters of `IsIdChar` |
| `Server.InUse` | server/src/index.ts:74 | the truthiness of `await UwU.get(key)`: the key is bound to a non-empty string |
| `Server.StoreInvariant` | server/src/index.ts:103-108 | every stored target passed the URL check and does not contain `uwu.land` |
| `Server.Validate` | server/src/index.ts:8-19 | the body is accepted if and only if `url` is a string passing the URL check and `id` is absent or a string whose trimmed form matches `^[\w\-]{3,16}$`; an accepted id is the trimmed one |
| `Server.IdentifierHasNoSlash` | server/src/index.ts:14-16 | an id the pattern accepts is non-empty and holds no `/`, so it is a single path segment |
| `Server.IdentifierIsTrimmed` | server/src/index.ts:13-16 | trimming leaves an accepted id unchanged |
| `Server.FirstFreeIndex` | server/src/index.ts:122-128 | the draw loop stops at a draw that is not in use, and every earlier draw was in use |
| `Server.Commit` | server/src/index.ts:132-146 | `UwU.put(id, url)` and the 201 answer: the id is added to the keys and maps to the URL, every other binding is unchanged, and the answer carries the id and `http://uwu.land/` + id |
| `Server.Post` | server/src/index.ts:81-147 | invalid body gives 400 "Invalid body"; a URL with `uwu.land` gives 400; a claimed id in use gives 409; every failure leaves the store unchanged; success happens exactly when none of these apply, and then the id matches the id pattern, was not in use, is the trimmed claimed id or else the first draw that is not in use, the store is the old store updated at that id with the URL, and the response is 201 with link `http://uwu.land/` + id |
| `Server.PostPreservesInvariant` | server/src/index.ts:103-108 | after any POST every stored target still passes the URL check and does not contain `uwu.land` |
| `Server.PostNeverOverwrites` | server/src/index.ts:111-132 | a successful POST adds a key that was absent and keeps every existing binding |
| `Server.SlugOf` | server/src/index.ts:62-63 | the slug is the fourth piece of the URL split on `/`, and it holds no `/` |
| `Server.SlugOfJoin` | server/src/index.ts:63 | the slug of a URL made of separator-free pieces is the fourth piece |
| `Server.SlugOfLink` | server/src/index.ts:63 | the slug of `scheme//host/id` is `id` |
| `Server.SlugOfLinkWithPath` | server/src/index.ts:63 | the slug of `scheme//host/id/more` is still `id` |
| `Server.Resolve` | server/src/index.ts:60-79 | GET redirects: to the landing page when the slug is missing or empty, to its 404 page when the slug is not in use, otherwise to the stored target |
| `Server.ResolveRoot` | server/src/index.ts:63-68 | the site root, with or without a trailing slash, redirects to the landing page |
| `Server.ResolveLink` | server/src/index.ts:71-78 | GET of `scheme//host/id` for an id in use redirects to its stored target |
| `Server.OwnDomainInPortalPages` | server/src/index.ts:67-75 | the landing page and the 404 page are on the service's own domain |
| `Server.ResolveLeavesDomainUnlessPortal` | server/src/index.ts:67-78 | with the store invariant, the string handed to `Response.redirect` contains `uwu.land` exactly when it is the landing or 404 page |
| `Server.PostBindsId` | server/src/index.ts:132 | after a successful POST the new id is a non-empty single segment bound, truthily, to the posted URL |
| `Server.PostThenGet` | server/src/index.ts:71-78 | round trip: after a successful POST, GET of the returned link, or of any `scheme//host/id`, calls `Response.redirect` with exactly the posted URL |
| `Server.SecondClaimConflicts` | server/src/index.ts:111-120 | once an id is bound by a POST, a second POST claiming the same id gets 409 and changes nothing |
| `Server.ExampleBodyValid` | server/src/index.ts:8-19 | the body `{ url, id: "mylink" }` validates to that URL and id |
| `Server.ShortenExample` | server/src/index.ts:81-147 | posting `https://example.com/page` with id `mylink` to a store without `mylink` gives 201 with link `http://uwu.land/mylink` and binds it |
| `Server.UpperCaseHostPasses` | server/src/index.ts:103-108 | the self-reference test is case-sensitive: `https://UWU.LAND/loop` with id `loop` is accepted with 201, the store invariant still holds, and GET of `https://uwu.land/loop` hands that target to `Response.redirect` |
| `Server.Handle` | server/src/index.ts:149-163 | GET goes to `Resolve`, POST to `Post`, OPTIONS gives 200 with an empty body, every other method gives 405 "Method not allowed"; only POST can change the store |
| `Server.Worker.constructor` | server/src/index.ts:4-6 | a worker over a namespace holding the given bindings |
| `Server.Worker.HandlePost` | server/src/index.ts:81-147 | the imperative handler (validation, claim check, draw loop, put) returns exactly `Post`'s response and leaves exactly `Post`'s store; it keeps the store invariant |
| `Server.Worker.Fetch` | server/src/index.ts:149-163 | the entry point returns exactly `Handle`'s response and store; it keeps the store invariant |

## Left out

- The browser form `client/src/components/Shortener.tsx` is UI and network code and is not part of this model.
- CORS headers (`CORSResponse`) and the JSON serialisation of response bodies are not modelled. An error response keeps only its status and message. The zod issue list in `errors` is dropped.
- zod's `.url()` check is a parameter `isUrl` of the model. Its actual URL grammar is not modelled.
- `request.json()` is not modelled: the body arrives already parsed. A body that is not JSON makes the source throw, and that path is not modelled.
- `decodeURI` is not modelled: GET receives the decoded URL. Its `URIError` on malformed escapes is not modelled.
- `Response.redirect` is not modelled. `Redirect(x)` stands for the call `Response.redirect(x)`. The Location header actually sent is `x` parsed and re-serialised as a URL, with the host lower-cased and percent-decoded, so it can differ from `x`. A target that is not a URL makes the call throw, and that path is not modelled.
- `nanoid(5)` is an oracle: a sequence of 5-character ids over `[A-Za-z0-9_-]`. The draw loop has no bound in the source, so it is modelled by consuming the oracle. The precondition that some draw is free stands in for the random stream eventually producing an unused id. It is required only when the loop is reached.
- Requests are modelled one at a time. The race between the `UwU.get` check and the `UwU.put` under concurrent requests is not modelled.
- The runtime's normalisation of the HTTP method name is not modelled. The dispatch compares the method string as given.
- Strings are sequences of Unicode scalar values, not UTF-16 code units. Every character the id pattern, `trim`, `split("/")` and `includes("uwu.land")` care about is a single code unit, so results agree.
- `if (id)` on a validated id is modelled as "an id was given": the pattern forces at least 3 characters, so a given id is always truthy.
- Server.PostNeverOverwrites: assumes the URL check refuses the empty string (WHATWG URL parsing does). Without that, a stored empty target would count as unbound and could be replaced, as in the source.
- Server.PostThenGet: assumes the URL check refuses the empty string. An empty stored target would make GET answer the 404 page, as in the source.
- Server.PostThenGet: the redirect is stated on the string handed to `Response.redirect`; the Location sent is that URL re-serialised, not byte-for-byte the posted string.
- Server.ResolveLeavesDomainUnlessPortal: the self-reference test `url.includes("uwu.land")` is case-sensitive and works on the raw string, and `Response.redirect` re-serialises the target. So the store invariant does not stop a redirect to uwu.land itself: a stored `https://UWU.LAND/loop` (or a host written with `%2E` or a soft hyphen) passes the test, yet the visitor is sent to `https://uwu.land/loop` (`UpperCaseHostPasses` exhibits the upper-case case). The lemma states only the substring fact about the string passed to `Response.redirect`.
- Server.PostThenGet: assumes the GET sees the preceding put. Cloudflare KV promises read-your-writes only at the location that wrote; elsewhere a GET may still see the old value for a while.
- Server.Resolve: the KV namespace is modelled as a total, failure-free, strongly consistent map. Cloudflare KV refuses keys longer than 512 bytes and the binding throws, so a GET with a longer slug ends in an uncaught exception (status 500) where `Resolve` redirects to the 404 page. Errors of `UwU.get` and `UwU.put` in `Post` are not modelled either.
- Server.SecondClaimConflicts: assumes the URL check refuses the empty string, for the same reason.
