/** The request and response shapes exchanged by the service and its route. */
module Types {
  import opened Wrappers
  import opened Js

  /** A well-typed verification request. */
  datatype VerifySignatureRequest = VerifySignatureRequest(message: string, signature: string)

  /** The service's result; `signer == None` is JSON `null`. */
  datatype VerifySignatureResponse = VerifySignatureResponse(isValid: bool, signer: Option<string>, originalMessage: string)

  /** The body sent back when the handler catches an error. */
  datatype ErrorResponse = ErrorResponse(error: string)

  /** A typed request as the JSON object a client posts. */
  function RequestBody(req: VerifySignatureRequest): (body: JsValue)
    ensures body.JObject?
    ensures Get(body, "message") == JString(req.message)
    ensures Get(body, "signature") == JString(req.signature)
  {
    JObject(map["message" := JString(req.message), "signature" := JString(req.signature)])
  }
}
