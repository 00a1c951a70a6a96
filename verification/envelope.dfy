/**
 * The two envelope constructors (src/utils/apiResponse.ts) and the JSON body a route sends when
 * it serialises an envelope (members that are `undefined` are not written).
 */
module Envelope {
  import opened Wrappers
  import opened Json
  import opened ApiTypes

  /** `successResponse(data)`. */
  function SuccessResponse<T>(data: T): (r: ApiResponse<T>)
    ensures r.IsSuccess() && r.data == data
  {
    Success(data)
  }

  /** `errorResponse(code, message?, details?)`. */
  function ErrorResponse<T>(code: ErrorCode, message: Option<string>, details: Option<Json>): (r: ApiResponse<T>)
    ensures !r.IsSuccess()
    ensures r.error.code == code && r.error.message == message && r.error.details == details
  {
    Failure(ApiError(code, message, details))
  }

  /** The `error` object of an error envelope as JSON. */
  function EncodeError(e: ApiError): Json {
    JObj(map["code" := JStr(CodeText(e.code))]
      + (if e.message.Some? then map["message" := JStr(e.message.value)] else map[])
      + (if e.details.Some? then map["details" := e.details.value] else map[]))
  }

  /** The body of `NextResponse.json(envelope)`. */
  function Encode(r: ApiResponse<Json>): Json {
    match r
    case Success(d) => JObj(map["success" := JBool(true), "data" := d])
    case Failure(e) => JObj(map["success" := JBool(false), "error" := EncodeError(e)])
  }

  /** A success envelope has exactly the members `success: true` and `data`, the data unchanged. */
  lemma SuccessEnvelopeShape(d: Json)
    ensures var j := Encode(SuccessResponse(d));
      && j.JObj? && j.fields.Keys == {"success", "data"}
      && j.fields["success"] == JBool(true) && j.fields["data"] == d
  {
  }

  /**
   * An error envelope has exactly `success: false` and `error`; the error object carries the
   * code and carries `message` and `details` exactly when they were given, unchanged.
   */
  lemma ErrorEnvelopeShape(code: ErrorCode, message: Option<string>, details: Option<Json>)
    ensures var j := Encode(ErrorResponse(code, message, details));
      && j.JObj? && j.fields.Keys == {"success", "error"} && j.fields["success"] == JBool(false)
      && var e := j.fields["error"];
      && e.JObj? && e.fields.Keys <= {"code", "message", "details"}
      && e.fields["code"] == JStr(CodeText(code))
      && ("message" in e.fields <==> message.Some?)
      && (message.Some? ==> e.fields["message"] == JStr(message.value))
      && ("details" in e.fields <==> details.Some?)
      && (details.Some? ==> e.fields["details"] == details.value)
  {
  }

  /** What `NextResponse.json(envelope, {status})` sends: a status (200 when none is given) and an envelope. */
  datatype Reply<+T> = Reply(status: int, body: ApiResponse<T>)

  /** The status is a success status exactly when the envelope is a success. */
  predicate Consistent<T>(r: Reply<T>) {
    (200 <= r.status < 300) <==> r.body.IsSuccess()
  }
}
