/**
 * The two routes: the `/health` probe and the POST `/verify-signature`
 * handler, each as a function to the (status, body) pair it sends. The
 * handler passes the service's result through with 200, and classifies a
 * thrown error by substrings of its message.
 */
module Routes {
  import opened Wrappers
  import opened Js
  import opened Types
  import opened SignatureService

  /** What a handler writes: `res.json(...)` of either shape, or `res.send(text)`. */
  datatype ResponseBody = Json(result: VerifySignatureResponse) | ErrorJson(err: ErrorResponse) | Text(text: string)

  datatype HttpResponse = HttpResponse(status: int, body: ResponseBody)

  const InternalServerError: string := "Internal Server Error"

  /** GET `/health`. */
  function Health(): (resp: HttpResponse)
    ensures resp.status == 200 && resp.body == Text("OK")
  {
    HttpResponse(200, Text("OK"))
  }

  /** `error instanceof Error ? error.message : "Internal Server Error"`. */
  function ErrorMessageOf(error: Thrown): (m: string)
    ensures error.ErrorInstance? ==> m == error.message
    ensures error.NonErrorValue? ==> m == InternalServerError
  {
    match error
    case ErrorInstance(message) => message
    case NonErrorValue => InternalServerError
  }

  /** 400 exactly when the message contains "Invalid body" or "signature must be", 500 otherwise. */
  function StatusForError(m: string): (code: int)
    ensures code == 400 || code == 500
    ensures code == 400 <==> Includes(m, "Invalid body")
                             || Includes(m, "signature must be")
  {
    if Includes(m, "Invalid body") || Includes(m, "signature must be") then 400 else 500
  }

  /** The POST `/verify-signature` handler applied to the service call's outcome. */
  function VerifySignatureRoute(outcome: Result<VerifySignatureResponse, Thrown>): (resp: HttpResponse)
    ensures resp.status in {200, 400, 500}
    ensures outcome.Success? ==> resp == HttpResponse(200, Json(outcome.value))
    ensures outcome.Failure? ==>
              && resp.body == ErrorJson(ErrorResponse(ErrorMessageOf(outcome.error)))
              && resp.status == StatusForError(ErrorMessageOf(outcome.error))
  {
    match outcome
    case Success(result) => HttpResponse(200, Json(result))
    case Failure(error) =>
      var errorMessage := ErrorMessageOf(error);
      HttpResponse(StatusForError(errorMessage), ErrorJson(ErrorResponse(errorMessage)))
  }

  /** The two validation messages that name the caller's mistake are classified 400. */
  lemma CallerErrorsAre400()
    ensures StatusForError(InvalidBody) == 400
    ensures StatusForError(SignatureNotHex) == 400
  {
    PrefixIncluded(InvalidBody, "Invalid body");
    PrefixIncluded(SignatureNotHex, "signature must be");
  }

  /** The missing-body message contains neither substring, so it is classified 500. */
  lemma MissingBodyIs500()
    ensures StatusForError(RequestBodyRequired) == 500
  {
    AbsentCharExcludes(RequestBodyRequired, "Invalid body", 0);
    AbsentCharExcludes(RequestBodyRequired, "signature must be", 4);
  }

  /** The generic message is classified 500. */
  lemma GenericErrorIs500()
    ensures StatusForError(InternalServerError) == 500
  {
    AbsentCharExcludes(InternalServerError, "Invalid body", 8);
    AbsentCharExcludes(InternalServerError, "signature must be", 2);
  }

  /**
   * The POST `/verify-signature` handler: `req.body` is passed to the service
   * and its outcome is classified. A body passing validation gets 200 with the
   * service's result; any other body gets its validation message, with 400
   * when it is an object or array and 500 when it is not.
   */
  function HandleVerifySignature(body: JsValue, recover: (string, string) -> Option<string>): (resp: HttpResponse)
    ensures resp.status in {200, 400, 500}
    ensures ValidateRequest(body).isValid ==>
              resp == HttpResponse(200, Json(VerifySignature(body, recover).value))
    ensures !ValidateRequest(body).isValid ==>
              && resp.body == ErrorJson(ErrorResponse(ValidateRequest(body).error.value))
              && resp.status == (if body.JObject? || body.JArray? then 400 else 500)
  {
    CallerErrorsAre400();
    MissingBodyIs500();
    VerifySignatureRoute(VerifySignature(body, recover))
  }

  /**
   * End to end: a `req.body` that is not an object or array (`undefined`,
   * `null`, a string, a number or a boolean) gets 500 (its message
   * "Request body is required" matches neither substring), a body failing
   * the field or hex checks gets 400 with that check's message, and a body
   * passing validation gets 200 with the service's result.
   */
  lemma HandlerStatusByValidation(body: JsValue, recover: (string, string) -> Option<string>)
    ensures var resp := HandleVerifySignature(body, recover);
            && (resp.status == 500 <==> !(body.JObject? || body.JArray?))
            && (resp.status == 400 <==> (body.JObject? || body.JArray?) && !ValidateRequest(body).isValid)
            && (resp.status == 200 <==> ValidateRequest(body).isValid)
            && (resp.status != 200 ==> resp.body == ErrorJson(ErrorResponse(ValidateRequest(body).error.value)))
            && (resp.status == 200 ==> resp.body == Json(VerifySignature(body, recover).value))
  {
  }

  /** A thrown value that is not an `Error` gets 500 with the generic message. */
  lemma NonErrorThrowIs500()
    ensures VerifySignatureRoute(Failure(NonErrorValue)) ==
              HttpResponse(500, ErrorJson(ErrorResponse(InternalServerError)))
  {
    GenericErrorIs500();
  }

  /** The boundary cases a client sees for concrete bodies. */
  lemma BoundaryCases(recover: (string, string) -> Option<string>)
    requires recover("x", "0x1234") == None
    ensures HandleVerifySignature(JUndefined, recover) ==
              HttpResponse(500, ErrorJson(ErrorResponse(RequestBodyRequired)))
    ensures HandleVerifySignature(JObject(map[]), recover) ==
              HttpResponse(400, ErrorJson(ErrorResponse(InvalidBody)))
    ensures HandleVerifySignature(JObject(map["message" := JNumber(123.0), "signature" := JString("0xab")]), recover) ==
              HttpResponse(400, ErrorJson(ErrorResponse(InvalidBody)))
    ensures HandleVerifySignature(RequestBody(VerifySignatureRequest("x", "abcd")), recover) ==
              HttpResponse(400, ErrorJson(ErrorResponse(SignatureNotHex)))
    ensures HandleVerifySignature(RequestBody(VerifySignatureRequest("x", "0xzz")), recover) ==
              HttpResponse(400, ErrorJson(ErrorResponse(SignatureNotHex)))
    ensures HandleVerifySignature(RequestBody(VerifySignatureRequest("x", "0x1234")), recover) ==
              HttpResponse(200, Json(VerifySignatureResponse(false, None, "x")))
  {
    HexSignatureExamples();
    assert ValidateRequest(JUndefined).error == Some(RequestBodyRequired);
    assert ValidateRequest(JObject(map[])).error == Some(InvalidBody);
    var numeric := JObject(map["message" := JNumber(123.0), "signature" := JString("0xab")]);
    assert Get(numeric, "message") == JNumber(123.0);
    assert ValidateRequest(numeric).error == Some(InvalidBody);
    assert ValidateRequest(RequestBody(VerifySignatureRequest("x", "abcd"))).error == Some(SignatureNotHex);
    assert ValidateRequest(RequestBody(VerifySignatureRequest("x", "0xzz"))).error == Some(SignatureNotHex);
    var passing := RequestBody(VerifySignatureRequest("x", "0x1234"));
    assert ValidateRequest(passing).isValid;
    RecoveryFailureYieldsNullSigner(passing, recover);
  }
}
