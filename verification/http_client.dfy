/**
 * The browser-side client for the API routes (src/lib/httpClient.ts). The network call is not
 * made here: `fetch` and `response.json()` are summed up by their outcome, an input.
 */
module HttpClient {
  import opened Wrappers
  import opened Json
  import opened ApiTypes
  import Envelope

  /** What `fetch` and `response.json()` produced for one request. */
  datatype FetchOutcome =
    /** `fetch` threw; `message` is `error.message` when the thrown value is an `Error`. */
    | Threw(message: Option<string>)
    /** A response arrived; `payload` is absent when the body was not JSON. */
    | Received(ok: bool, payload: Option<Json>)

  const UnknownCode := JStr(CodeText(CommonUnknown))

  /** `code ?? 'COMMON.UNKNOWN'`: both `undefined` and `null` fall back. */
  function CodeOrUnknown(code: Option<Json>): (r: Json)
    ensures code.Some? && code.value != JNull ==> r == code.value
    ensures code.None? || code.value == JNull ==> r == UnknownCode
  {
    if code.Some? && code.value != JNull then code.value else UnknownCode
  }

  /**
   * `toErrorResponse(code?, message?)`: an error envelope whose code is the given one or
   * `COMMON.UNKNOWN`, and whose message is there exactly when one was given.
   */
  function ToErrorResponse(code: Option<Json>, message: Option<Json>): (r: Json)
    ensures r.JObj? && r.fields.Keys == {"success", "error"} && r.fields["success"] == JBool(false)
    ensures var e := r.fields["error"];
      && e.JObj? && "code" in e.fields && e.fields["code"] == CodeOrUnknown(code)
      && ("message" in e.fields <==> message.Some?)
      && (message.Some? ==> e.fields["message"] == message.value)
  {
    JObj(map[
      "success" := JBool(false),
      "error" := JObj(map["code" := CodeOrUnknown(code)]
                      + if message.Some? then map["message" := message.value] else map[])
    ])
  }

  /**
   * The classification ladder of `request`: a non-ok status first, then an ok body that says
   * `success: false`, then an ok body with `data`, then any other ok body.
   */
  function Request(outcome: FetchOutcome): (r: Json)
    ensures r.Get("success") == Some(JBool(false)) || r.Get("success") == Some(JBool(true))
    ensures r.Get("success") == Some(JBool(true)) <==>
      outcome.Received? && outcome.ok && GetOpt(outcome.payload, "success") != Some(JBool(false))
    // A thrown error: `COMMON.UNKNOWN`, with the error's own message when it has one.
    ensures outcome.Threw? ==>
      && r.Get("error").Some?
      && r.fields["error"].Get("code") == Some(UnknownCode)
      && r.fields["error"].Get("message") == (if outcome.message.Some? then Some(JStr(outcome.message.value)) else None)
    // A non-ok status: the body's `error.code` (or `COMMON.UNKNOWN`) and its `error.message`.
    ensures outcome.Received? && !outcome.ok ==>
      var error := GetOpt(outcome.payload, "error");
      && r.Get("error").Some?
      && r.fields["error"].Get("code") == Some(CodeOrUnknown(GetOpt(error, "code")))
      && r.fields["error"].Get("message") == GetOpt(error, "message")
    // An ok body that says `success: false` comes back as it is, whatever else it holds.
    ensures outcome.Received? && outcome.ok && GetOpt(outcome.payload, "success") == Some(JBool(false)) ==>
      r == outcome.payload.value
    // Any other ok body becomes a success envelope with exactly `success` and `data` ...
    ensures outcome.Received? && outcome.ok && GetOpt(outcome.payload, "success") != Some(JBool(false)) ==>
      r.JObj? && r.fields.Keys == {"success", "data"}
    // ... whose data is the body's `data` member when there is one ...
    ensures (outcome.Received? && outcome.ok && GetOpt(outcome.payload, "success") != Some(JBool(false))
             && GetOpt(outcome.payload, "data").Some?) ==>
      r.Get("data") == GetOpt(outcome.payload, "data")
    // ... and otherwise the whole body, or `{}` when there is no body or it is `null`.
    ensures (outcome.Received? && outcome.ok && GetOpt(outcome.payload, "success") != Some(JBool(false))
             && GetOpt(outcome.payload, "data").None?) ==>
      r.Get("data") == Some(if outcome.payload.None? || outcome.payload.value == JNull then JObj(map[]) else outcome.payload.value)
  {
    match outcome
    case Threw(message) =>
      ToErrorResponse(Some(UnknownCode), if message.Some? then Some(JStr(message.value)) else None)
    case Received(ok, payload) =>
      if !ok then
        var error := GetOpt(payload, "error");
        ToErrorResponse(GetOpt(error, "code"), GetOpt(error, "message"))
      else if GetOpt(payload, "success") == Some(JBool(false)) then
        payload.value
      else if GetOpt(payload, "data").Some? then
        JObj(map["success" := JBool(true), "data" := GetOpt(payload, "data").value])
      else
        JObj(map["success" := JBool(true),
                 "data" := if payload.None? || payload.value == JNull then JObj(map[]) else payload.value])
  }

  /**
   * The status is checked first: a non-ok response is an error whatever its body says, even one
   * that claims `success: true`, and it carries the body's `error.code` and `error.message`.
   */
  lemma NonOkIsError(payload: Option<Json>)
    ensures var r := Request(Received(false, payload));
      var error := GetOpt(payload, "error");
      && r.Get("success") == Some(JBool(false))
      && r.fields["error"].fields["code"] == CodeOrUnknown(GetOpt(error, "code"))
      && ("message" in r.fields["error"].fields <==> GetOpt(error, "message").Some?)
      && (GetOpt(error, "message").Some? ==> r.fields["error"].fields["message"] == GetOpt(error, "message").value)
  {
  }

  /** A thrown error becomes `COMMON.UNKNOWN` carrying the error's message when there is one. */
  lemma ThrownIsUnknown(message: Option<string>)
    ensures var r := Request(Threw(message));
      && r.Get("success") == Some(JBool(false))
      && r.fields["error"].fields["code"] == UnknownCode
      && ("message" in r.fields["error"].fields <==> message.Some?)
      && (message.Some? ==> r.fields["error"].fields["message"] == JStr(message.value))
  {
  }

  /** An ok body saying `success: false` is handed back untouched, whatever else it holds. */
  lemma OkFailureVerbatim(payload: Json)
    requires payload.Get("success") == Some(JBool(false))
    ensures Request(Received(true, Some(payload))) == payload
  {
  }

  /**
   * An ok body without `data` (such as the bare array `GET /api/projects` sends) becomes the
   * data itself; a JSON `null` body becomes `{}`.
   */
  lemma OkBodyIsData(payload: Json)
    requires payload.Get("success") != Some(JBool(false)) && payload.Get("data").None?
    ensures Request(Received(true, Some(payload)))
         == Envelope.Encode(Success(if payload == JNull then JObj(map[]) else payload))
  {
  }

  /** An ok response with a `data` member yields a success envelope holding exactly that data. */
  lemma OkWithData(payload: Json, data: Json)
    requires payload.Get("data") == Some(data) && payload.Get("success") != Some(JBool(false))
    ensures Request(Received(true, Some(payload))) == Envelope.Encode(Success(data))
  {
  }

  /** An ok response whose body is not JSON yields a success envelope with an empty object. */
  lemma OkWithoutBody()
    ensures Request(Received(true, None)) == Envelope.Encode(Success(JObj(map[])))
  {
  }

  /**
   * The client is transparent for the envelopes the routes send with an ok status: what the
   * server encoded is what the caller gets back.
   */
  lemma {:induction false} OkEnvelopeRoundTrip(e: ApiResponse<Json>)
    ensures Request(Received(true, Some(Envelope.Encode(e)))) == Envelope.Encode(e)
  {
    match e
    case Success(d) =>
      assert Envelope.Encode(e).Get("success") == Some(JBool(true));
      assert Envelope.Encode(e).Get("data") == Some(d);
    case Failure(err) =>
      assert Envelope.Encode(e).Get("success") == Some(JBool(false));
  }

  /**
   * An error envelope sent with a non-ok status keeps its code and message; its `details` are
   * dropped.
   */
  lemma {:induction false} NonOkEnvelope(err: ApiError)
    ensures Request(Received(false, Some(Envelope.Encode(Failure(err)))))
         == Envelope.Encode(Failure(err.(details := None)))
  {
    var j := Envelope.Encode(Failure(err));
    var e := Envelope.EncodeError(err);
    assert j.Get("error") == Some(e);
    assert e.Get("code") == Some(JStr(CodeText(err.code)));
    assert err.message.Some? ==> e.Get("message") == Some(JStr(err.message.value));
    assert err.message.None? ==> e.Get("message") == None;
    var r := Request(Received(false, Some(j)));
    var r' := Envelope.Encode(Failure(err.(details := None)));
    assert r.fields["error"].fields == r'.fields["error"].fields;
  }

  /** The request settings handed to `fetch`. */
  datatype RequestInit = RequestInit(verb: Option<string>, headers: map<string, string>, body: Option<Json>)

  const DefaultHeaders: map<string, string> := map["Content-Type" := "application/json"]

  /** `{...init, headers: {...DEFAULT_HEADERS, ...init.headers}}`: the caller's headers win. */
  function FetchInit(init: RequestInit): (r: RequestInit)
    ensures r.headers.Keys == DefaultHeaders.Keys + init.headers.Keys
    ensures forall h :: h in init.headers ==> r.headers[h] == init.headers[h]
    ensures "Content-Type" !in init.headers ==> r.headers["Content-Type"] == "application/json"
    ensures r.verb == init.verb && r.body == init.body
  {
    init.(headers := DefaultHeaders + init.headers)
  }

  /**
   * `httpClient.post` and `httpClient.put` (`verb` is "POST" or "PUT"): the given method, and
   * the payload as the body, in place of any body the caller's settings carry.
   */
  function SendInit(verb: string, body: Json, init: RequestInit): (r: RequestInit)
    ensures r.verb == Some(verb) && r.body == Some(body)
    ensures r.headers == DefaultHeaders + init.headers
  {
    FetchInit(init.(verb := Some(verb), body := Some(body)))
  }

  /** `httpClient.delete(url, init)`: the method is DELETE and the caller's body is kept. */
  function DeleteInit(init: RequestInit): (r: RequestInit)
    ensures r.verb == Some("DELETE") && r.body == init.body
    ensures r.headers == DefaultHeaders + init.headers
  {
    FetchInit(init.(verb := Some("DELETE")))
  }
}
