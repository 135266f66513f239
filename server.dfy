/**
 * The uwu.land Cloudflare Worker: a link shortener whose only state is the KV
 * namespace `UwU`, a map from slug to target URL.
 *
 * POST `/` validates a JSON body `{ url, id? }`, claims the caller's id or draws
 * a random 5-character one, stores `id -> url` and answers 201. GET `/<slug>`
 * redirects to the stored target, to the landing page when there is no slug, or
 * to the landing page's 404 when the slug is unbound. OPTIONS answers 200 and
 * every other method 405.
 */
module Server {
  import opened JsString

  datatype Option<T> = None | Some(value: T)

  /** The service's own domain; a target URL holding it is refused. */
  const OwnDomain := "uwu.land"
  /** Prefix of the short link a successful POST returns. */
  const ShortLinkBase := "http:" + "//" + OwnDomain + "/"
  /** Where GET sends a visitor when the request names no slug. */
  const HomePage := "https://app." + OwnDomain
  /** Where GET sends a visitor when the slug is unbound. */
  const NotFoundPage := HomePage + "/404"

  const InvalidBodyMessage := "Invalid body"
  const SelfReferenceMessage := "Cannot use uwu.land as a redirect URL"
  const InUseMessage := "ID already in use"
  const MethodNotAllowedMessage := "Method not allowed"

  /** A character of the regular-expression class `[\w\-]`: `\w` is `[A-Za-z0-9_]`
      (the `i` flag does not widen it without the `u` flag). */
  predicate IsIdChar(c: char): (b: bool)
    ensures b ==> c as int < 0x80 && c != '/' && !IsWhitespace(c)
  {
    ('A' <= c <= 'Z') || ('a' <= c <= 'z') || ('0' <= c <= '9') || c == '_' || c == '-'
  }

  /** A string the regular expression `^[\w\-]{3,16}$` accepts. */
  predicate IsIdentifier(s: string) {
    3 <= |s| <= 16 && forall i | 0 <= i < |s| :: IsIdChar(s[i])
  }

  /** What `nanoid(5)` returns: 5 characters of its URL-safe alphabet `[A-Za-z0-9_-]`. */
  type NanoId = s: string | |s| == 5 && forall i | 0 <= i < |s| :: IsIdChar(s[i])
    witness "AAAAA"

  /** A JSON value as far as validation cares: a string, or anything else (null, a number, ...). */
  datatype Json = JsonString(s: string) | JsonOther

  /** The parsed request body: an object with its `url` and `id` members (None when the key is
      absent), or any JSON value that is not an object. */
  datatype Body = JsonObject(url: Option<Json>, id: Option<Json>) | NotAnObject

  /** The data of a body that passed validation; `id` is already trimmed. */
  datatype Fields = Fields(url: string, id: Option<string>)

  /** The responses the worker builds. Error bodies carry only status and message. */
  datatype Response =
    | Redirect(location: string)                 // Response.redirect, status 302
    | ErrorResponse(code: int, message: string)  // createErrorResponse
    | Created(id: string, link: string)          // 201 with body { id, url }
    | Plain(code: int, text: string)             // CORSResponse with a text body
  {
    function Status(): int {
      match this
      case Redirect(_) => 302
      case ErrorResponse(code, _) => code
      case Created(_, _) => 201
      case Plain(code, _) => code
    }
  }

  /** A request as the worker sees it: its method (`verb`), its URL after `decodeURI`, and its JSON body. */
  datatype Request = Request(verb: string, url: string, body: Body)

  /** A response together with the store after the request. */
  datatype Outcome = Outcome(resp: Response, kv: map<string, string>)

  /** The KV lookup of `key` gives a truthy value: present and not the empty string. */
  predicate InUse(kv: map<string, string>, key: string) {
    key in kv && kv[key] != ""
  }

  /** Every stored target passed the URL check and does not mention the service's own domain. */
  ghost predicate StoreInvariant(isUrl: string -> bool, kv: map<string, string>) {
    forall key | key in kv :: isUrl(kv[key]) && !Contains(kv[key], OwnDomain)
  }

  // ---------------------------------------------------------------------------
  // Body validation (the zod schema)
  // ---------------------------------------------------------------------------

  /** `schemas.body.safeParse(body)`: `url` must be a string passing the URL check `isUrl`;
      `id` may be absent, and otherwise must be a string whose trimmed form the id pattern accepts. */
  function Validate(isUrl: string -> bool, body: Body): (r: Option<Fields>)
    ensures r.Some? ==> body.JsonObject? && body.url == Some(JsonString(r.value.url)) && isUrl(r.value.url)
    ensures r.Some? ==> (r.value.id.Some? <==> body.id.Some?)
    ensures r.Some? && r.value.id.Some? ==>
              body.id.value.JsonString? && r.value.id.value == Trim(body.id.value.s)
              && IsIdentifier(r.value.id.value)
    ensures body.JsonObject? && body.url.Some? && body.url.value.JsonString? && isUrl(body.url.value.s)
            && (body.id.None? || (body.id.value.JsonString? && IsIdentifier(Trim(body.id.value.s))))
            ==> r.Some?
  {
    match body
    case NotAnObject => None
    case JsonObject(url, id) =>
      if url.None? || !url.value.JsonString? || !isUrl(url.value.s) then None
      else
        match id
        case None => Some(Fields(url.value.s, None))
        case Some(JsonOther) => None
        case Some(JsonString(raw)) =>
          var trimmed := Trim(raw);
          if IsIdentifier(trimmed) then Some(Fields(url.value.s, Some(trimmed))) else None
  }

  /** A validated id is a single path segment. */
  lemma IdentifierHasNoSlash(id: string)
    requires IsIdentifier(id)
    ensures '/' !in id && id != ""
  {
  }

  /** Trimming leaves a validated id alone. */
  lemma IdentifierIsTrimmed(id: string)
    requires IsIdentifier(id)
    ensures Trim(id) == id
  {
    assert !IsWhitespace(id[0]) by { assert IsIdChar(id[0]); }
    assert !IsWhitespace(id[|id| - 1]) by { assert IsIdChar(id[|id| - 1]); }
    TrimFixed(id);
  }

  // ---------------------------------------------------------------------------
  // Slug allocation
  // ---------------------------------------------------------------------------

  /** Some draw of the id oracle is free in `kv`, so the draw loop stops. */
  predicate HasFree(kv: map<string, string>, draws: seq<NanoId>) {
    exists k | 0 <= k < |draws| :: !InUse(kv, draws[k])
  }

  lemma HasFreeTail(kv: map<string, string>, draws: seq<NanoId>)
    requires HasFree(kv, draws) && InUse(kv, draws[0])
    ensures HasFree(kv, draws[1..])
  {
    var k :| 0 <= k < |draws| && !InUse(kv, draws[k]);
    assert draws[1..][k - 1] == draws[k];
  }

  /** The index of the draw the loop stops at: the first one that is not in use. */
  function FirstFreeIndex(kv: map<string, string>, draws: seq<NanoId>): (k: nat)
    requires HasFree(kv, draws)
    ensures k < |draws| && !InUse(kv, draws[k])
    ensures forall j | 0 <= j < k :: InUse(kv, draws[j])
    decreases |draws|
  {
    if !InUse(kv, draws[0]) then 0
    else
      HasFreeTail(kv, draws);
      1 + FirstFreeIndex(kv, draws[1..])
  }

  /** The body passes validation and the self-reference check and names no id, so the handler
      reaches the draw loop. */
  predicate NeedsDraw(isUrl: string -> bool, body: Body) {
    match Validate(isUrl, body)
    case None => false
    case Some(fields) => !Contains(fields.url, OwnDomain) && fields.id.None?
  }

  // ---------------------------------------------------------------------------
  // POST: what handlePOST does to a store
  // ---------------------------------------------------------------------------

  /** `UwU.put(id, url)` and the 201 answer: the id now maps to the URL, every other binding stays,
      and the link handed back is the short link of the id. */
  function Commit(kv: map<string, string>, id: string, url: string): (o: Outcome)
    ensures o.resp.Created? && o.resp.Status() == 201 && o.resp.id == id && o.resp.link == ShortLinkBase + id
    ensures o.kv.Keys == kv.Keys + {id} && o.kv[id] == url
    ensures forall key | key in kv && key != id :: o.kv[key] == kv[key]
  {
    Outcome(Created(id, ShortLinkBase + id), kv[id := url])
  }

  /** The response and the new store after `handlePOST(body)` on store `kv`, with `draws` the
      successive results of `nanoid(5)`. */
  function Post(isUrl: string -> bool, kv: map<string, string>, body: Body, draws: seq<NanoId>): (o: Outcome)
    requires NeedsDraw(isUrl, body) ==> HasFree(kv, draws)
    // every failure leaves the store as it was
    ensures !o.resp.Created? ==> o.kv == kv
    ensures Validate(isUrl, body).None? ==> o == Outcome(ErrorResponse(400, InvalidBodyMessage), kv)
    ensures Validate(isUrl, body).Some? && Contains(Validate(isUrl, body).value.url, OwnDomain) ==>
              o == Outcome(ErrorResponse(400, SelfReferenceMessage), kv)
    ensures var v := Validate(isUrl, body);
            v.Some? && !Contains(v.value.url, OwnDomain) && v.value.id.Some? && InUse(kv, v.value.id.value) ==>
              o == Outcome(ErrorResponse(409, InUseMessage), kv)
    // success: exactly when nothing above applies; one new binding, for an id not in use
    ensures var v := Validate(isUrl, body);
            o.resp.Created? <==>
              v.Some? && !Contains(v.value.url, OwnDomain) && (v.value.id.None? || !InUse(kv, v.value.id.value))
    ensures o.resp.Created? ==>
              && IsIdentifier(o.resp.id)
              && !InUse(kv, o.resp.id)
              && o.kv == kv[o.resp.id := Validate(isUrl, body).value.url]
              && o.resp.link == ShortLinkBase + o.resp.id
              && o.resp.Status() == 201
    ensures o.resp.Created? && Validate(isUrl, body).value.id.Some? ==>
              o.resp.id == Validate(isUrl, body).value.id.value
    ensures o.resp.Created? && Validate(isUrl, body).value.id.None? ==>
              && HasFree(kv, draws)
              && o.resp.id == draws[FirstFreeIndex(kv, draws)]
              && |o.resp.id| == 5
  {
    match Validate(isUrl, body)
    case None => Outcome(ErrorResponse(400, InvalidBodyMessage), kv)
    case Some(fields) =>
      if Contains(fields.url, OwnDomain) then Outcome(ErrorResponse(400, SelfReferenceMessage), kv)
      else
        match fields.id
        case Some(id) =>
          if InUse(kv, id) then Outcome(ErrorResponse(409, InUseMessage), kv)
          else Commit(kv, id, fields.url)
        case None =>
          Commit(kv, draws[FirstFreeIndex(kv, draws)], fields.url)
  }

  /** A POST keeps the store invariant: no stored target ever mentions the service's own domain. */
  lemma PostPreservesInvariant(isUrl: string -> bool, kv: map<string, string>, body: Body, draws: seq<NanoId>)
    requires NeedsDraw(isUrl, body) ==> HasFree(kv, draws)
    requires StoreInvariant(isUrl, kv)
    ensures StoreInvariant(isUrl, Post(isUrl, kv, body, draws).kv)
  {
  }

  /** Under the invariant, and since the URL check refuses the empty string, every key present
      is in use; a successful POST therefore never replaces an existing binding. */
  lemma PostNeverOverwrites(isUrl: string -> bool, kv: map<string, string>, body: Body, draws: seq<NanoId>)
    requires NeedsDraw(isUrl, body) ==> HasFree(kv, draws)
    requires StoreInvariant(isUrl, kv) && !isUrl("")
    ensures var o := Post(isUrl, kv, body, draws);
            o.resp.Created? ==>
              && o.resp.id !in kv && kv.Keys < o.kv.Keys
              && forall key | key in kv :: o.kv[key] == kv[key]
  {
  }

  // ---------------------------------------------------------------------------
  // GET: redirect resolution
  // ---------------------------------------------------------------------------

  /** `decodeURI(request.url).split("/")[3]`, None when there is no fourth piece. */
  function SlugOf(url: string): (slug: Option<string>)
    ensures slug.Some? ==> '/' !in slug.value
  {
    var parts := Split(url, '/');
    if |parts| > 3 then Some(parts[3]) else None
  }

  /** The slug of a URL made of separator-free pieces is its fourth piece. */
  lemma SlugOfJoin(parts: seq<string>)
    requires |parts| > 3
    requires forall p | p in parts :: '/' !in p
    ensures SlugOf(Join(parts, '/')) == Some(parts[3])
  {
    SplitJoin(parts, '/');
  }

  lemma JoinLink(scheme: string, host: string, id: string)
    ensures Join([scheme, "", host, id], '/') == scheme + "//" + host + "/" + id
  {
    JoinCons(host, [id], '/');
    assert [host, id] == [host] + [id];
    JoinCons("", [host, id], '/');
    assert ["", host, id] == [""] + [host, id];
    JoinCons(scheme, ["", host, id], '/');
    assert [scheme, "", host, id] == [scheme] + ["", host, id];
    assert scheme + ['/'] + ("" + ['/'] + (host + ['/'] + id)) == scheme + "//" + host + "/" + id;
  }

  /** The slug of `scheme//host/id` is `id`. */
  lemma SlugOfLink(scheme: string, host: string, id: string)
    requires '/' !in scheme && '/' !in host && '/' !in id
    ensures SlugOf(scheme + "//" + host + "/" + id) == Some(id)
  {
    var parts := [scheme, "", host, id];
    JoinLink(scheme, host, id);
    assert forall p | p in parts :: '/' !in p;
    SlugOfJoin(parts);
  }

  /** The slug of `scheme//host/id/more...` is still `id`: further path is ignored. */
  lemma SlugOfLinkWithPath(scheme: string, host: string, id: string, rest: seq<string>)
    requires '/' !in scheme && '/' !in host && '/' !in id
    requires |rest| > 0 && forall p | p in rest :: '/' !in p
    ensures SlugOf(scheme + "//" + host + "/" + id + "/" + Join(rest, '/')) == Some(id)
  {
    var parts := [scheme, "", host, id];
    JoinLink(scheme, host, id);
    JoinAppend(parts, rest, '/');
    var all := parts + rest;
    var link := scheme + "//" + host + "/" + id;
    assert Join(all, '/') == link + "/" + Join(rest, '/') by {
      assert Join(parts, '/') == link;
      assert Join(all, '/') == Join(parts, '/') + ['/'] + Join(rest, '/');
    }
    assert forall p | p in all :: '/' !in p by {
      assert forall p | p in all :: p in parts || p in rest;
    }
    assert all[3] == id;
    SlugOfJoin(all);
  }

  /** `handleGET`: always a redirect; to the landing page without a slug, to its 404 page for a slug
      not in use, and otherwise to the stored target. */
  function Resolve(kv: map<string, string>, url: string): (r: Response)
    ensures r.Redirect? && r.Status() == 302
    ensures SlugOf(url) in {None, Some("")} ==> r.location == HomePage
    ensures SlugOf(url).Some? && SlugOf(url).value != "" && !InUse(kv, SlugOf(url).value) ==>
              r.location == NotFoundPage
    ensures SlugOf(url).Some? && SlugOf(url).value != "" && InUse(kv, SlugOf(url).value) ==>
              r.location == kv[SlugOf(url).value]
  {
    match SlugOf(url)
    case None => Redirect(HomePage)
    case Some(slug) =>
      if slug == "" then Redirect(HomePage)
      else if !InUse(kv, slug) then Redirect(NotFoundPage)
      else Redirect(kv[slug])
  }

  /** The site root, with or without its trailing slash, redirects to the landing page. */
  lemma ResolveRoot(kv: map<string, string>, scheme: string, host: string)
    requires '/' !in scheme && '/' !in host
    ensures Resolve(kv, scheme + "//" + host) == Redirect(HomePage)
    ensures Resolve(kv, scheme + "//" + host + "/") == Redirect(HomePage)
  {
    var parts := [scheme, "", host];
    assert Join(parts, '/') == scheme + "//" + host by {
      JoinCons("", [host], '/');
      JoinCons(scheme, ["", host], '/');
    }
    SplitJoin(parts, '/');
    SlugOfLink(scheme, host, "");
    assert scheme + "//" + host + "/" + "" == scheme + "//" + host + "/";
  }

  lemma OwnDomainInPortalPages()
    ensures Contains(HomePage, OwnDomain) && Contains(NotFoundPage, OwnDomain)
  {
    ContainsInside("https://app.", OwnDomain, "");
    assert HomePage == "https://app." + OwnDomain + "";
    ContainsInside("https://app.", OwnDomain, "/404");
  }

  /** Under the store invariant the string handed to `Response.redirect` contains `uwu.land` exactly
      when it is the landing page or its 404 page. The test is on that raw string, case-sensitive. */
  lemma ResolveLeavesDomainUnlessPortal(isUrl: string -> bool, kv: map<string, string>, url: string)
    requires StoreInvariant(isUrl, kv)
    ensures var loc := Resolve(kv, url).location;
            Contains(loc, OwnDomain) <==> loc in {HomePage, NotFoundPage}
  {
    OwnDomainInPortalPages();
  }

  // ---------------------------------------------------------------------------
  // POST then GET
  // ---------------------------------------------------------------------------

  /** The short link is `http:` `//` `uwu.land` `/` id, pieces without a separator. */
  lemma ShortLinkPieces()
    ensures '/' !in "http:" && '/' !in OwnDomain
  {
  }

  /** GET of `scheme//host/id` for an id in use redirects to its stored target. */
  lemma ResolveLink(kv: map<string, string>, scheme: string, host: string, id: string)
    requires '/' !in scheme && '/' !in host && '/' !in id
    requires id != "" && InUse(kv, id)
    ensures Resolve(kv, scheme + "//" + host + "/" + id) == Redirect(kv[id])
  {
    SlugOfLink(scheme, host, id);
  }

  /** After a successful POST the new id is a single path segment bound, truthily, to the posted URL. */
  lemma PostBindsId(isUrl: string -> bool, kv: map<string, string>, body: Body, draws: seq<NanoId>)
    requires NeedsDraw(isUrl, body) ==> HasFree(kv, draws)
    requires Post(isUrl, kv, body, draws).resp.Created?
    requires !isUrl("")
    ensures var o := Post(isUrl, kv, body, draws);
            && o.resp.id != "" && '/' !in o.resp.id
            && InUse(o.kv, o.resp.id) && o.kv[o.resp.id] == Validate(isUrl, body).value.url
  {
    var o := Post(isUrl, kv, body, draws);
    var id, url := o.resp.id, Validate(isUrl, body).value.url;
    assert o.kv == kv[id := url] && IsIdentifier(id);
    assert url != "" by { assert isUrl(url); }
    IdentifierHasNoSlash(id);
  }

  /** Round trip: after a successful POST, a GET of the returned short link (or of any link with the
      id as its path) redirects to exactly the posted URL. */
  lemma PostThenGet(isUrl: string -> bool, kv: map<string, string>, body: Body,
                    draws: seq<NanoId>, scheme: string, host: string)
    requires NeedsDraw(isUrl, body) ==> HasFree(kv, draws)
    requires Post(isUrl, kv, body, draws).resp.Created?
    requires !isUrl("")
    requires '/' !in scheme && '/' !in host
    ensures var o := Post(isUrl, kv, body, draws);
            && Resolve(o.kv, o.resp.link) == Redirect(Validate(isUrl, body).value.url)
            && Resolve(o.kv, scheme + "//" + host + "/" + o.resp.id) == Redirect(Validate(isUrl, body).value.url)
  {
    var o := Post(isUrl, kv, body, draws);
    PostBindsId(isUrl, kv, body, draws);
    ShortLinkPieces();
    ResolveLink(o.kv, "http:", OwnDomain, o.resp.id);
    ResolveLink(o.kv, scheme, host, o.resp.id);
  }

  /** A caller-supplied id is a one-shot claim: once a POST has bound it, a second POST naming the
      same id (after trimming) gets 409 and changes nothing. */
  lemma SecondClaimConflicts(isUrl: string -> bool, kv: map<string, string>, first: Body,
                             second: Body, draws: seq<NanoId>)
    requires NeedsDraw(isUrl, first) ==> HasFree(kv, draws)
    requires Post(isUrl, kv, first, draws).resp.Created?
    requires !isUrl("")
    requires Validate(isUrl, second).Some? && !Contains(Validate(isUrl, second).value.url, OwnDomain)
    requires Validate(isUrl, second).value.id == Some(Post(isUrl, kv, first, draws).resp.id)
    ensures var o := Post(isUrl, kv, first, draws);
            Post(isUrl, o.kv, second, draws) == Outcome(ErrorResponse(409, InUseMessage), o.kv)
  {
    var o := Post(isUrl, kv, first, draws);
    assert Validate(isUrl, first).value.url != "";
    assert InUse(o.kv, o.resp.id);
  }

  lemma ExampleLiterals()
    ensures 'u' !in "https://example.com/page"
    ensures ShortLinkBase + "mylink" == "http://uwu.land/mylink"
  {
  }

  /** The body of the example claim passes validation unchanged. */
  lemma ExampleBodyValid(isUrl: string -> bool, url: string)
    requires isUrl(url)
    ensures Validate(isUrl, JsonObject(Some(JsonString(url)), Some(JsonString("mylink"))))
            == Some(Fields(url, Some("mylink")))
  {
    assert IsIdentifier("mylink");
    IdentifierIsTrimmed("mylink");
  }

  /** The example of a fresh claim: `{ url: "https://example.com/page", id: "mylink" }` on a store
      without "mylink" is answered 201 with the short link http://uwu.land/mylink. */
  lemma ShortenExample(isUrl: string -> bool, kv: map<string, string>, draws: seq<NanoId>)
    requires isUrl("https://example.com/page") && "mylink" !in kv
    ensures var body := JsonObject(Some(JsonString("https://example.com/page")), Some(JsonString("mylink")));
            Post(isUrl, kv, body, draws)
            == Outcome(Created("mylink", "http://uwu.land/mylink"), kv["mylink" := "https://example.com/page"])
  {
    var url := "https://example.com/page";
    ExampleBodyValid(isUrl, url);
    ExampleLiterals();
    NotContainsFirstChar(url, OwnDomain);
  }

  /** The self-reference test is case-sensitive: a target naming the service's own host in upper
      case is accepted and stored, the store invariant still holds, and a GET of its short link hands
      exactly that target to `Response.redirect`, which sends the visitor back to uwu.land. */
  lemma UpperCaseHostPasses(isUrl: string -> bool, kv: map<string, string>, draws: seq<NanoId>)
    requires isUrl("https://UWU.LAND/loop") && "loop" !in kv && StoreInvariant(isUrl, kv)
    ensures var o := Post(isUrl, kv, JsonObject(Some(JsonString("https://UWU.LAND/loop")), Some(JsonString("loop"))), draws);
            && o.resp == Created("loop", "http://uwu.land/loop")
            && StoreInvariant(isUrl, o.kv)
            && Resolve(o.kv, "https://uwu.land/loop") == Redirect("https://UWU.LAND/loop")
  {
    var url := "https://UWU.LAND/loop";
    var body := JsonObject(Some(JsonString(url)), Some(JsonString("loop")));
    assert IsIdentifier("loop");
    IdentifierIsTrimmed("loop");
    assert Validate(isUrl, body) == Some(Fields(url, Some("loop")));
    UpperCaseLiterals();
    NotContainsFirstChar(url, OwnDomain);
    var o := Post(isUrl, kv, body, draws);
    PostPreservesInvariant(isUrl, kv, body, draws);
    ResolveLink(o.kv, "https:", OwnDomain, "loop");
  }

  lemma UpperCaseLiterals()
    ensures 'u' !in "https://UWU.LAND/loop"
    ensures ShortLinkBase + "loop" == "http://uwu.land/loop"
    ensures "https:" + "//" + OwnDomain + "/" + "loop" == "https://uwu.land/loop"
    ensures '/' !in "https:" && '/' !in OwnDomain
  {
  }

  // ---------------------------------------------------------------------------
  // Method dispatch (the fetch entry point)
  // ---------------------------------------------------------------------------

  /** The response and new store for one request. Only POST can change the store. */
  function Handle(isUrl: string -> bool, kv: map<string, string>, request: Request, draws: seq<NanoId>): (o: Outcome)
    requires request.verb == "POST" && NeedsDraw(isUrl, request.body) ==> HasFree(kv, draws)
    ensures request.verb != "POST" ==> o.kv == kv
    ensures request.verb == "GET" ==> o.resp == Resolve(kv, request.url)
    ensures request.verb == "POST" ==> o == Post(isUrl, kv, request.body, draws)
    ensures request.verb == "OPTIONS" ==> o.resp == Plain(200, "")
    ensures request.verb !in {"GET", "POST", "OPTIONS"} ==> o.resp == Plain(405, MethodNotAllowedMessage)
  {
    match request.verb
    case "GET" => Outcome(Resolve(kv, request.url), kv)
    case "POST" => Post(isUrl, kv, request.body, draws)
    case "OPTIONS" => Outcome(Plain(200, ""), kv)
    case _ => Outcome(Plain(405, MethodNotAllowedMessage), kv)
  }

  // ---------------------------------------------------------------------------
  // The worker and its KV namespace
  // ---------------------------------------------------------------------------

  /** The worker bound to its KV namespace `UwU`; `isUrl` is the schema's URL check. */
  class Worker {
    const isUrl: string -> bool
    var kv: map<string, string>

    ghost predicate Valid()
      reads this
    {
      StoreInvariant(isUrl, kv)
    }

    /** A worker over a namespace that already holds `initial`. */
    constructor (isUrl: string -> bool, initial: map<string, string>)
      ensures this.isUrl == isUrl && kv == initial
      ensures StoreInvariant(isUrl, initial) ==> Valid()
    {
      this.isUrl := isUrl;
      kv := initial;
    }

    /** `handlePOST`: validate, refuse self-references, claim the given id or draw ids until one is
        free, then put the binding. `draws` are the successive results of `nanoid(5)`. */
    method HandlePost(body: Body, draws: seq<NanoId>) returns (resp: Response)
      requires NeedsDraw(isUrl, body) ==> HasFree(kv, draws)
      modifies this`kv
      ensures Outcome(resp, kv) == Post(isUrl, old(kv), body, draws)
      ensures old(Valid()) ==> Valid()
    {
      ghost var kv0 := kv;
      if old(Valid()) {
        PostPreservesInvariant(isUrl, kv, body, draws);
      }
      var fields := Validate(isUrl, body);
      if fields.None? {
        return ErrorResponse(400, InvalidBodyMessage);
      }
      var url := fields.value.url;
      if Contains(url, OwnDomain) {
        return ErrorResponse(400, SelfReferenceMessage);
      }
      var id: string;
      if fields.value.id.Some? {
        id := fields.value.id.value;
        if InUse(kv, id) {
          return ErrorResponse(409, InUseMessage);
        }
      } else {
        var i := 0;
        id := draws[0];
        while InUse(kv, id)
          invariant 0 <= i <= FirstFreeIndex(kv, draws)
          invariant id == draws[i]
          decreases FirstFreeIndex(kv, draws) - i
        {
          i := i + 1;
          id := draws[i];
        }
        assert i == FirstFreeIndex(kv, draws);
      }
      kv := kv[id := url];
      resp := Created(id, ShortLinkBase + id);
    }

    /** The `fetch` entry point: dispatch on the request method. */
    method Fetch(request: Request, draws: seq<NanoId>) returns (resp: Response)
      requires request.verb == "POST" && NeedsDraw(isUrl, request.body) ==> HasFree(kv, draws)
      modifies this`kv
      ensures Outcome(resp, kv) == Handle(isUrl, old(kv), request, draws)
      ensures old(Valid()) ==> Valid()
    {
      match request.verb
      case "GET" =>
        resp := Resolve(kv, request.url);
      case "POST" =>
        resp := HandlePost(request.body, draws);
      case "OPTIONS" =>
        resp := Plain(200, "");
      case _ =>
        resp := Plain(405, MethodNotAllowedMessage);
    }
  }
}
