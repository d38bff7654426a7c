/**
 * The contact-form endpoint (pages/api/contact.ts): an early-return chain
 * over the request method, the server configuration and the request body,
 * then one upstream call whose outcome decides the response.
 */
module ContactApi {
  import opened Text

  /** The JavaScript values a parsed request body can hold. */
  datatype JsValue =
    | Undefined
    | Null
    | Bool(b: bool)
    | Num(n: int)
    | Str(s: string)
    | Arr(items: seq<JsValue>)
    | Obj(fields: map<string, JsValue>)

  /** JavaScript truthiness (`NaN` is not modelled). */
  predicate Truthy(v: JsValue)
  {
    match v
    case Undefined => false
    case Null => false
    case Bool(b) => b
    case Num(n) => n != 0
    case Str(s) => s != ""
    case Arr(_) => true
    case Obj(_) => true
  }

  /** `a || b` on JavaScript values. */
  function Or(a: JsValue, b: JsValue): (r: JsValue)
    ensures Truthy(a) ==> r == a
    ensures !Truthy(a) ==> r == b
  {
    if Truthy(a) then a else b
  }

  /** A property read after `req.body || {}`: a falsy body reads as `{}`, a
      property missing from an object, or any property of a non-object, is
      `undefined`. */
  function Field(body: JsValue, key: string): (v: JsValue)
    ensures v != Undefined ==> body.Obj? && key in body.fields && v == body.fields[key]
    ensures body.Obj? && key in body.fields ==> v == body.fields[key]
  {
    var b := Or(body, Obj(map[]));
    if b.Obj? && key in b.fields then b.fields[key] else Undefined
  }

  /** The process environment; an unset variable reads as the empty string,
      which `||` treats like `undefined`. */
  datatype Env = Env(directusUrl: string, publicDirectusUrl: string, staticToken: string)

  /** `DIRECTUS_URL`: the server-side variable, else the public one. */
  function DirectusUrl(env: Env): (url: string)
    ensures env.directusUrl != "" ==> url == env.directusUrl
    ensures env.directusUrl == "" ==> url == env.publicDirectusUrl
  {
    if env.directusUrl != "" then env.directusUrl else env.publicDirectusUrl
  }

  /** The response body type `Data`. */
  datatype Body = Success | Failure(error: string)

  datatype Response = Response(status: nat, body: Body)

  /** The record sent upstream. Name, email and message pass through as
      the body holds them. */
  datatype Payload = Payload(
    languageCode: JsValue,
    name: JsValue,
    email: JsValue,
    company: JsValue,
    message: JsValue,
    consentGiven: bool)

  /** The upstream POST: target URL, `Authorization` header and record. */
  datatype UpstreamRequest = UpstreamRequest(url: string, authorization: string, payload: Payload)

  /** What the upstream call did: answered ok, answered with an error
      status, or threw. */
  datatype UpstreamOutcome = Ok | NotOk | Threw

  /** Either an early response or the upstream request to make. */
  datatype Step = Respond(response: Response) | Forward(request: UpstreamRequest)

  const MethodNotAllowed := Response(405, Failure("Method not allowed"))
  const Misconfigured := Response(500, Failure("Server misconfiguration"))
  const MissingFields := Response(400, Failure("Missing required fields or consent"))
  const SaveFailed := Response(500, Failure("Failed to save contact request"))
  const Unexpected := Response(500, Failure("Unexpected server error"))
  const Saved := Response(200, Success)

  /** The collection endpoint under the configured base URL. */
  function UpstreamUrl(env: Env): (url: string)
    ensures url == StripTrailingSlash(DirectusUrl(env)) + "/items/contact_requests"
    ensures DirectusUrl(env) == url[..|url| - |"/items/contact_requests"|]
         || DirectusUrl(env) == url[..|url| - |"/items/contact_requests"|] + "/"
  {
    StripTrailingSlash(DirectusUrl(env)) + "/items/contact_requests"
  }

  /** The record built from the body. */
  function PayloadOf(body: JsValue): (p: Payload)
    ensures p.consentGiven
    ensures Truthy(p.languageCode)
    ensures Truthy(Field(body, "lang")) ==> p.languageCode == Field(body, "lang")
    ensures !Truthy(Field(body, "lang")) ==> p.languageCode == Str("en")
    ensures p.company == Null || Truthy(p.company)
    ensures Truthy(Field(body, "company")) ==> p.company == Field(body, "company")
    ensures !Truthy(Field(body, "company")) ==> p.company == Null
    ensures p.name == Field(body, "name") && p.email == Field(body, "email")
    ensures p.message == Field(body, "message")
  {
    Payload(
      Or(Field(body, "lang"), Str("en")),
      Field(body, "name"),
      Field(body, "email"),
      Or(Field(body, "company"), Null),
      Field(body, "message"),
      true)
  }

  /** The body passes validation: name, email and message truthy, consent
      exactly `true`. */
  predicate Complete(body: JsValue)
  {
    Truthy(Field(body, "name")) && Truthy(Field(body, "email"))
    && Truthy(Field(body, "message")) && Field(body, "consent") == Bool(true)
  }

  /** The checks before the upstream call, in source order. */
  function Validate(verb: string, env: Env, body: JsValue): (r: Step)
    ensures verb != "POST" ==> r == Respond(MethodNotAllowed)
    ensures r.Forward? ==> r.request.payload == PayloadOf(body)
    ensures r.Forward? ==> r.request.url == UpstreamUrl(env)
    ensures r.Forward? ==> r.request.authorization == "Bearer " + env.staticToken
  {
    if verb != "POST" then Respond(MethodNotAllowed)
    else if DirectusUrl(env) == "" || env.staticToken == "" then Respond(Misconfigured)
    else if !Complete(body) then Respond(MissingFields)
    else Forward(UpstreamRequest(UpstreamUrl(env), "Bearer " + env.staticToken, PayloadOf(body)))
  }

  /** The response once the upstream call has run: success for an ok
      answer, and a 500 whose message tells an error answer from a throw. */
  function Finish(outcome: UpstreamOutcome): (r: Response)
    ensures r.status == 200 <==> outcome == Ok
    ensures r.body.Success? <==> r.status == 200
    ensures outcome == Ok ==> r == Response(200, Success)
    ensures outcome == NotOk ==> r == Response(500, Failure("Failed to save contact request"))
    ensures outcome == Threw ==> r == Response(500, Failure("Unexpected server error"))
  {
    match outcome
    case Ok => Saved
    case NotOk => SaveFailed
    case Threw => Unexpected
  }

  /** The handler. `outcome` is what the upstream call would do; it is
      consulted only when validation forwards the request. */
  function Handle(verb: string, env: Env, body: JsValue, outcome: UpstreamOutcome): (r: Response)
    ensures r.status in {200, 400, 405, 500}
    ensures r.body.Success? <==> r.status == 200
    ensures r.body.Failure? ==> r.body.error != ""
  {
    match Validate(verb, env, body)
    case Respond(response) => response
    case Forward(_) => Finish(outcome)
  }

  /** Once validation forwards the request, the upstream outcome alone
      decides the answer: an error status and a throw both give 500, with
      different messages, and neither is mistaken for a validation error. */
  lemma UpstreamFailuresReported(verb: string, env: Env, body: JsValue)
    requires Validate(verb, env, body).Forward?
    ensures Handle(verb, env, body, Ok) == Response(200, Success)
    ensures Handle(verb, env, body, NotOk) == Response(500, Failure("Failed to save contact request"))
    ensures Handle(verb, env, body, Threw) == Response(500, Failure("Unexpected server error"))
    ensures Handle(verb, env, body, NotOk) != Misconfigured
    ensures Handle(verb, env, body, Threw) != Misconfigured
  {
    assert Handle(verb, env, body, NotOk) == Finish(NotOk);
    assert Handle(verb, env, body, Threw) == Finish(Threw);
  }

  /** The method check comes before everything else. */
  lemma MethodCheckedFirst(verb: string, env: Env, body: JsValue, outcome: UpstreamOutcome)
    requires verb != "POST"
    ensures Handle(verb, env, body, outcome) == MethodNotAllowed
  {
  }

  /** The configuration check comes before body validation. */
  lemma ConfigCheckedBeforeBody(env: Env, body: JsValue, outcome: UpstreamOutcome)
    requires DirectusUrl(env) == "" || env.staticToken == ""
    ensures Handle("POST", env, body, outcome) == Misconfigured
  {
  }

  /** A POST reaches the upstream call exactly when the configuration is
      present and the body is complete. */
  lemma ForwardedIffValid(verb: string, env: Env, body: JsValue)
    ensures Validate(verb, env, body).Forward?
      <==> verb == "POST" && DirectusUrl(env) != "" && env.staticToken != "" && Complete(body)
  {
  }

  /** A 400 answers exactly the configured POSTs whose body is incomplete. */
  lemma BadRequestIff(verb: string, env: Env, body: JsValue, outcome: UpstreamOutcome)
    ensures Handle(verb, env, body, outcome).status == 400
      <==> verb == "POST" && DirectusUrl(env) != "" && env.staticToken != "" && !Complete(body)
  {
  }

  /** A missing body is validated as `{}`, so it is rejected. */
  lemma MissingBodyRejected(env: Env, outcome: UpstreamOutcome)
    requires DirectusUrl(env) != "" && env.staticToken != ""
    ensures Handle("POST", env, Undefined, outcome) == MissingFields
    ensures Handle("POST", env, Null, outcome) == MissingFields
  {
  }

  /** A truthy but non-boolean consent such as `"true"` is rejected. */
  lemma ConsentMustBeTrue(env: Env, outcome: UpstreamOutcome, fields: map<string, JsValue>)
    requires DirectusUrl(env) != "" && env.staticToken != ""
    requires "consent" in fields && fields["consent"] == Str("true")
    ensures Handle("POST", env, Obj(fields), outcome) == MissingFields
  {
  }

  /** A request is saved exactly when it passes validation and the upstream
      call answers ok. */
  lemma SavedIff(verb: string, env: Env, body: JsValue, outcome: UpstreamOutcome)
    ensures Handle(verb, env, body, outcome) == Saved
      <==> Validate(verb, env, body).Forward? && outcome == Ok
  {
  }

  /** The server-side base URL wins over the public one, and one trailing
      slash is removed. */
  lemma PreferredUrl(a: string, b: string, token: string)
    ensures UpstreamUrl(Env(a + "/", b, token)) == a + "/items/contact_requests"
  {
    StripOneSlash(a);
  }

  /** Without the server-side variable the public one is used; of several
      trailing slashes only the last is removed. */
  lemma PublicUrlFallback(b: string, token: string)
    ensures UpstreamUrl(Env("", b + "//", token)) == b + "//items/contact_requests"
  {
    StripOneSlash(b + "/");
    assert b + "//" == (b + "/") + "/";
    assert (b + "/") + "/items/contact_requests" == b + "//items/contact_requests";
  }

  lemma StripOneSlash(s: string)
    ensures StripTrailingSlash(s + "/") == s
  {
    assert (s + "/")[..|s|] == s;
  }
}
