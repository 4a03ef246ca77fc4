/**
 * The signature service: request validation, the hex-signature recogniser,
 * and the total `verifySignature` wrapper around signer recovery.
 *
 * Recovery of the signing address from an EIP-191 personal message and its
 * signature is performed by a cryptographic library; here it is the parameter
 * `recover`, whose `None` stands for "the library threw".
 */
module SignatureService {
  import opened Wrappers
  import opened Js
  import opened Types

  const RequestBodyRequired: string := "Request body is required"
  // The two caller-error messages are the source's literals, written as the
  // phrase the route classifies on followed by the rest of the text. The split
  // exists for the proof of `Routes.CallerErrorsAre400`: the verifier cannot
  // index into string literals this long, but derives the prefix of a
  // concatenation directly.
  const InvalidBody: string := "Invalid body" + ". Expect { message: string, signature: string }"
  const SignatureNotHex: string := "signature must be" + " a 0x-prefixed hex string"

  /** A character of the class `[0-9a-fA-F]`. */
  predicate IsHexDigit(c: char) {
    '0' <= c <= '9' || 'a' <= c <= 'f' || 'A' <= c <= 'F'
  }

  /** The regex tail `[0-9a-fA-F]+$`: one or more hex digits, then the end of the string. */
  function HexRunToEnd(s: string): (b: bool)
    ensures b <==> |s| > 0 && forall i :: 0 <= i < |s| ==> IsHexDigit(s[i])
  {
    |s| > 0 && IsHexDigit(s[0]) && (|s| == 1 || HexRunToEnd(s[1..]))
  }

  /**
   * `/^0x[0-9a-fA-F]+$/.test(signature)`: the literal `0x` (lower-case x only),
   * at least one hex digit, nothing else; no parity or length requirement.
   */
  function IsValidHexSignature(signature: string): (b: bool)
    ensures b <==> (|signature| >= 3 && signature[..2] == "0x"
                    && forall i :: 2 <= i < |signature| ==> IsHexDigit(signature[i]))
  {
    |signature| >= 2 && signature[0] == '0' && signature[1] == 'x' && HexRunToEnd(signature[2..])
  }

  /** The result of `validateRequest`: `{ isValid, error? }`. */
  datatype Validation = Validation(isValid: bool, error: Option<string>)

  /** The first check passes: `!(!body || typeof body !== "object")`. */
  predicate IsPresentObject(body: JsValue) {
    Truthy(body) && TypeOf(body) == "object"
  }

  /** Both fields read from the body are strings. */
  predicate HasStringFields(body: JsValue) {
    Get(body, "message").JString? && Get(body, "signature").JString?
  }

  /**
   * `validateRequest`: three checks in order, the first failing one decides
   * the error. Stated in terms of what the body is (an object or array, and
   * the JSON types of its two fields) rather than in JavaScript's coercions.
   */
  function ValidateRequest(body: JsValue): (v: Validation)
    ensures v.isValid <==> v.error == None
    ensures !(body.JObject? || body.JArray?) ==> v.error == Some(RequestBodyRequired)
    ensures body.JArray? ==> v.error == Some(InvalidBody)
    ensures (body.JObject? && !(Get(body, "message").JString? && Get(body, "signature").JString?))
              ==> v.error == Some(InvalidBody)
    ensures (body.JObject? && Get(body, "message").JString? && Get(body, "signature").JString?)
              ==> v == (if IsValidHexSignature(Get(body, "signature").s)
                        then Validation(true, None)
                        else Validation(false, Some(SignatureNotHex)))
  {
    if !IsPresentObject(body) then
      Validation(false, Some(RequestBodyRequired))
    else if !HasStringFields(body) then
      Validation(false, Some(InvalidBody))
    else if !IsValidHexSignature(Get(body, "signature").s) then
      Validation(false, Some(SignatureNotHex))
    else
      Validation(true, None)
  }

  /**
   * `verifySignature`: throws the validation error when validation fails,
   * without consulting `recover`; otherwise never throws, passes the two
   * fields to `recover` as received, reports `isValid` as the truthiness of
   * the recovered address and echoes the message verbatim.
   */
  function VerifySignature(request: JsValue, recover: (string, string) -> Option<string>)
    : (r: Result<VerifySignatureResponse, Thrown>)
    ensures !ValidateRequest(request).isValid ==>
              r == Failure(ErrorInstance(ValidateRequest(request).error.value))
    ensures ValidateRequest(request).isValid ==>
              && request.JObject?
              && Get(request, "message").JString?
              && Get(request, "signature").JString?
              && r.Success?
              && r.value.originalMessage == Get(request, "message").s
              && r.value.signer == recover(Get(request, "message").s, Get(request, "signature").s)
              && (r.value.isValid <==> r.value.signer.Some? && r.value.signer.value != "")
  {
    var validation := ValidateRequest(request);
    if !validation.isValid then
      Failure(NewError(validation.error))
    else
      var message := Get(request, "message").s;
      var signature := Get(request, "signature").s;
      var signerAddress := recover(message, signature);
      Success(VerifySignatureResponse(Truthy(OfNullable(signerAddress)), signerAddress, message))
  }

  /** Every validation error is one of the three fixed messages, and they are pairwise distinct. */
  lemma ValidationErrorsAreTheThreeMessages(body: JsValue)
    ensures ValidateRequest(body).error.Some? ==>
              ValidateRequest(body).error.value in {RequestBodyRequired, InvalidBody, SignatureNotHex}
    ensures RequestBodyRequired != InvalidBody && InvalidBody != SignatureNotHex
              && RequestBodyRequired != SignatureNotHex
  {
  }

  /** When validation fails, the outcome does not depend on recovery at all. */
  lemma RecoveryNotAttemptedOnInvalid(request: JsValue, recover1: (string, string) -> Option<string>,
                                      recover2: (string, string) -> Option<string>)
    requires !ValidateRequest(request).isValid
    ensures VerifySignature(request, recover1) == VerifySignature(request, recover2)
    ensures VerifySignature(request, recover1).Failure?
  {
  }

  /** A typed request: rejected only for a non-hex signature, otherwise answered with the recovered signer and the message. */
  lemma TypedRequestOutcome(req: VerifySignatureRequest, recover: (string, string) -> Option<string>)
    ensures VerifySignature(RequestBody(req), recover) ==
              if IsValidHexSignature(req.signature) then
                Success(VerifySignatureResponse(
                  match recover(req.message, req.signature) case Some(a) => a != "" case None => false,
                  recover(req.message, req.signature),
                  req.message))
              else
                Failure(ErrorInstance(SignatureNotHex))
  {
  }

  /** A recovery failure is absorbed: the call succeeds with a `null` signer and `isValid == false`. */
  lemma RecoveryFailureYieldsNullSigner(request: JsValue, recover: (string, string) -> Option<string>)
    requires ValidateRequest(request).isValid
    requires recover(Get(request, "message").s, Get(request, "signature").s) == None
    ensures VerifySignature(request, recover) ==
              Success(VerifySignatureResponse(false, None, Get(request, "message").s))
  {
  }

  /** An empty recovered address is reported as a non-`null` signer with `isValid == false`. */
  lemma EmptyAddressIsNotValid(request: JsValue, recover: (string, string) -> Option<string>)
    requires ValidateRequest(request).isValid
    requires recover(Get(request, "message").s, Get(request, "signature").s) == Some("")
    ensures VerifySignature(request, recover).Success?
    ensures VerifySignature(request, recover).value.signer != None
    ensures !VerifySignature(request, recover).value.isValid
  {
  }

  /** The recogniser on boundary inputs: no parity or length rule, lower-case marker only, anchored at the end. */
  lemma HexSignatureExamples()
    ensures IsValidHexSignature("0x1234")
    ensures IsValidHexSignature("0xabc")
    ensures IsValidHexSignature("0xA")
    ensures !IsValidHexSignature("0x")
    ensures !IsValidHexSignature("0X12")
    ensures !IsValidHexSignature("0xzz")
    ensures !IsValidHexSignature("abcd")
    ensures !IsValidHexSignature("0x12\n")
  {
  }
}
