# Personal-message signature verification: request validation and result classification

This project models the request-handling core of a small web service that
checks an Ethereum "personal message" signature. A client posts
`{ message, signature }`. The service validates the body in three ordered
stages. It then asks a cryptographic library to recover the signing address
and reports `{ isValid, signer, originalMessage }`. The route turns the
service's result into HTTP 200, and a thrown error into 400 or 500 by
looking for substrings in the error's message. A `/health` probe answers
200 "OK".

Modules:

- `Wrappers` (`wrappers.dfy`): `Option` and `Result`. `Result` is the outcome of
  a call that returns or throws.
- `Js` (`js.dfy`): the JavaScript semantics the code relies on.
  - `JsValue` is an untyped body.
  - `Truthy` is `Boolean(v)` and `TypeOf` is `typeof`.
  - `Get` reads a property. `Thrown` is a thrown value. `NewError` is `new Error(m)`.
  - `Includes` is `String.prototype.includes`.
- `Types` (`types.dfy`): the request, response and error-body shapes, and
  `RequestBody`, which gives a typed request as the JSON object a client posts.
- `SignatureService` (`signature_service.dfy`): the hex recogniser, `validateRequest`
  and `verifySignature`.
- `Routes` (`routes.dfy`): the `/health` response, the POST `/verify-signature`
  handler's classification, and end-to-end lemmas for the handler composed
  with the service.

Signer recovery (`recoverMessageAddress`) is a function parameter
`recover: (string, string) -> Option<string>`. `None` stands for "the library
threw". Because `VerifySignature` is a pure function of `recover`, "recovery
is not attempted when validation fails" is stated as: the outcome is the same
for every `recover`.

Where the behaviour described for the system and the code disagree, the model
follows the code:

- A `req.body` that is not an object or array (`undefined`, `null`, a string, a number or a boolean) fails with "Request body is required". That
  message contains neither "Invalid body" nor "signature must be", so the
  route answers 500, not 400 (`Routes.MissingBodyIs500`,
  `Routes.HandlerStatusByValidation`).
- `isValid` is `Boolean(signer)`. A recovered empty string therefore gives
  `signer: ""` with `isValid: false`, so `isValid` is not exactly
  `signer != null` (`SignatureService.EmptyAddressIsNotValid`).
- The signature pattern `^0x[0-9a-fA-F]+$` has no even-length or 65-byte
  requirement. For example, `0xabc` passes validation
  (`SignatureService.HexSignatureExamples`).

## Model

| member | source | states |
|---|---|---|
| SignatureService.HexRunToEnd | src/services/signatureService.ts:9 | the regex tail `[0-9a-fA-F]+$` holds exactly when the rest is non-empty and every character is a hex digit |
| SignatureService.IsValidHexSignature | src/services/signatureService.ts:8-10 | accepts exactly the strings made of `0x` (lower-case x) followed by one or more characters, all in `0-9a-fA-F`; no parity or length rule |
| SignatureService.HexSignatureExamples | src/services/signatureService.ts:9 | `0x1234`, `0xabc`, `0xA` accepted; `0x`, `0X12`, `0xzz`, `abcd`, and `0x12` followed by a newline rejected |
| SignatureService.ValidateRequest | src/services/signatureService.ts:15-37 | the first failing check decides: not an object or array gives "Request body is required"; an array, or an object whose message or signature is not a string, gives "Invalid body ..."; a non-hex signature gives "signature must be ..."; valid exactly when no error is carried |
| SignatureService.ValidationErrorsAreTheThreeMessages | src/services/signatureService.ts:16-34 | every validation error is one of three pairwise distinct fixed messages |
| SignatureService.VerifySignature | src/services/signatureService.ts:42-70 | throws an `Error` with exactly the validation message when validation fails; otherwise never throws, passes message and signature to recovery as received, `signer` is the recovered value unchanged, `isValid` holds iff it is a non-empty string, and `originalMessage` is the input message verbatim |
| SignatureService.RecoveryNotAttemptedOnInvalid | src/services/signatureService.ts:45-48 | when validation fails, the outcome is a failure and is the same whatever recovery would do |
| SignatureService.TypedRequestOutcome | src/services/signatureService.ts:45-69 | for a well-typed request, the only error is a non-hex signature; otherwise the result carries the recovered signer, its truthiness and the message |
| SignatureService.RecoveryFailureYieldsNullSigner | src/services/signatureService.ts:53-61 | a recovery failure gives success with `signer: null` and `isValid: false` |
| SignatureService.EmptyAddressIsNotValid | src/services/signatureService.ts:63-67 | an empty recovered address is reported with a non-null signer and `isValid: false` |
| Js.NewError | src/services/signatureService.ts:47 | `new Error(m)` is an `Error` instance whose message is `m` |
| Types.RequestBody | src/types/index.ts:1-4 | a typed request is an object whose `message` and `signature` fields are those strings |
| Routes.Health | src/routes/index.ts:9-11 | `/health` answers 200 with body "OK" |
| Routes.ErrorMessageOf | src/routes/index.ts:23-24 | an `Error` gives its message; any other thrown value gives "Internal Server Error" |
| Routes.StatusForError | src/routes/index.ts:25-29 | the status is 400 or 500, and 400 exactly when the message includes "Invalid body" or "signature must be" |
| Routes.VerifySignatureRoute | src/routes/index.ts:21-32 | a service result goes out unchanged with 200; a thrown error goes out as `{error: m}` with the status for `m`; the status is always 200, 400 or 500 |
| Routes.HandleVerifySignature | src/routes/index.ts:17-32 | the handler composed with the service: the status is 200, 400 or 500; a body passing validation gets 200 with the service's result; any other body gets `{error: m}` with its validation message `m`, and status 400 when it is an object or array, 500 otherwise |
| Routes.CallerErrorsAre400 | src/routes/index.ts:25-29 | the wrong-field-type and bad-hex validation messages are classified 400 |
| Routes.MissingBodyIs500 | src/routes/index.ts:25-29 | "Request body is required" is classified 500 |
| Routes.GenericErrorIs500 | src/routes/index.ts:23-29 | "Internal Server Error" is classified 500 |
| Routes.NonErrorThrowIs500 | src/routes/index.ts:23-32 | a thrown non-`Error` gives 500 with `{error: "Internal Server Error"}` |
| Routes.HandlerStatusByValidation | src/routes/index.ts:17-32 | end to end: 500 iff the body is not an object or array, 400 iff it is one but fails validation, 200 iff it passes; error bodies carry the validation message, and a 200 body is the service result |
| Routes.BoundaryCases | src/routes/index.ts:17-32 | a `req.body` that is `undefined` gives 500; `{}`, a numeric message, a signature without `0x` and `0xzz` give 400; `0x1234` with failing recovery gives 200 with `isValid: false, signer: null` |

## Left out

- The cryptographic recovery is a parameter. This covers EIP-191 personal-message framing, keccak-256 and secp256k1 public-key recovery (`recoverMessageAddress` from viem). Its `None` stands for any exception it throws.
- `async`/`await` is not modelled: the calls are synchronous. The only suspension point is the recovery call, which is a parameter here.
- Express wiring is not modelled: app construction, `listen`, CORS, JSON body parsing, and `res.status(...).json(...)` as I/O. Each handler is a function returning a (status, body) pair.
- What reaches the handler as `req.body` depends on the JSON body parser, which is not modelled. For example, the parser may hand over `{}` (answered 400) rather than `undefined` (answered 500) when a request has no body. The model covers every value the handler can receive.
- Process configuration read from environment variables is not modelled.
- `Js.Get` models only own properties of objects. This is enough for the two keys the service reads: no built-in prototype defines `message` or `signature`.
- `Js.Truthy` does not model NaN, which cannot occur in a parsed JSON body.
- Strings are sequences of characters. UTF-16 code units versus code points make no difference to the ASCII pattern and substrings checked here.
