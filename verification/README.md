# Fleet enrollment command — a Dafny model

This project models the enrollment exchange of the Elastic Agent with Fleet
(`x-pack/agent/pkg/fleetapi/enroll_cmd.go`) and proves properties of it. It covers three layers:

- the `EnrollType` wire codec: the canonical table `mapEnrollType`, the inverse
  `reverseMapEnrollType` built by `init`, `UnmarshalJSON` and `MarshalJSON`
  (module `EnrollTypes`, file `enroll_type.dfy`);
- the request and response records and their validators, which run every
  check and collect every violation in check order (module `Enrollment`,
  file `enrollment.dfy`; the ordering helper is module `Subsequences`);
- `EnrollCmd.Execute`, which runs validate → encode → send → status check →
  decode → validate (module `EnrollCmd`, file `enroll_cmd.dfy`).

Modelling decisions:

- Go byte strings are Dafny `string`s, one character per byte. The table's
  only key, `PERMANENT`, is ASCII.
- `EnrollType` is a named Go string, so any string is a value of the type.
  Only registered values cross the wire.
- `init` ranges over a Go map, whose iteration order is unspecified.
  `RangeInto` takes the order as a parameter. The proofs show that every
  order yields the same table, the inverse of the forward table.
- A Go `error` built with `multierror.Append` is modelled as a sequence of
  `Violation` labels. An empty sequence stands for the nil error.
- `Execute` is a pure function. The transport `send`, the body decoder
  `decode` and the error extractor `extract` are function parameters, so
  every property holds whatever they do. An `Execution` records the request
  handed to `Send`. `None` means that `Send` was never called. It also
  records the single result.
- `UnmarshalJSON` drops the first and the last byte without checking them
  (enroll_cmd.go:44), so an input whose outer bytes are not quotes still
  decodes (`OuterBytesUnchecked`). The remaining bytes are compared raw, so
  JSON escapes are not undone.

## Model

| member | source | states |
|---|---|---|
| `EnrollTypes.RegisteredTypes` | x-pack/agent/pkg/fleetapi/enroll_cmd.go:21-28 | PERMANENT is the only value of the canonical table |
| `EnrollTypes.ForwardTableInjective` | x-pack/agent/pkg/fleetapi/enroll_cmd.go:26-28 | no two wire tokens of the table name the same enrollment type |
| `EnrollTypes.RangeInto` | x-pack/agent/pkg/fleetapi/enroll_cmd.go:32-36 | the `init` loop, in any visiting order, maps every visited key's value back to a visited key that the table sends to that value |
| `EnrollTypes.InitBuildsInverse` | x-pack/agent/pkg/fleetapi/enroll_cmd.go:26-36 | for an injective table and any iteration order covering its keys, `init` builds exactly its inverse: the keys are the table's values and each value maps back to its key |
| `EnrollTypes.InverseIsUnique` | x-pack/agent/pkg/fleetapi/enroll_cmd.go:30-36 | a table has at most one inverse |
| `EnrollTypes.InitOrderIrrelevant` | x-pack/agent/pkg/fleetapi/enroll_cmd.go:32-36 | two runs of `init` over the same injective table in different orders build the same reverse table |
| `EnrollTypes.ReverseTable` | x-pack/agent/pkg/fleetapi/enroll_cmd.go:30-36 | `reverseMapEnrollType` is the inverse of `mapEnrollType` |
| `EnrollTypes.InitYieldsReverseTable` | x-pack/agent/pkg/fleetapi/enroll_cmd.go:30-36 | every iteration order of `init` over the real table gives the same reverse table |
| `EnrollTypes.TableKeysArePlain` | x-pack/agent/pkg/fleetapi/enroll_cmd.go:26-28 | every wire token in the table needs no JSON escaping |
| `EnrollTypes.Unmarshal` | x-pack/agent/pkg/fleetapi/enroll_cmd.go:39-53 | input of at most two bytes fails with "invalid enroll type received". Otherwise decoding succeeds iff the input minus its outer bytes is a table key, and it then yields that key's value. Every failure leaves the receiver unchanged, and a non-key reports the inner string |
| `EnrollTypes.ShortInputRejected` | x-pack/agent/pkg/fleetapi/enroll_cmd.go:40-43 | any input of length two or less is rejected and the receiver keeps its prior value |
| `EnrollTypes.OuterBytesUnchecked` | x-pack/agent/pkg/fleetapi/enroll_cmd.go:44-45 | the outer bytes are not checked to be quotes: `xPERMANENTy` decodes to PERMANENT |
| `EnrollTypes.Marshal` | x-pack/agent/pkg/fleetapi/enroll_cmd.go:56-63 | encoding fails with "cannot serialize unknown type" iff the value is not a table value. Otherwise it yields a quoted table key that maps to the value |
| `EnrollTypes.MarshalExamples` | x-pack/agent/pkg/fleetapi/enroll_cmd.go:56-63 | PERMANENT encodes to `"PERMANENT"`; the empty type is refused |
| `EnrollTypes.RoundTrip` | x-pack/agent/pkg/fleetapi/enroll_cmd.go:39-63 | decoding the output of a successful encode gives back the encoded value, whatever the receiver held |
| `EnrollTypes.DecodeThenEncode` | x-pack/agent/pkg/fleetapi/enroll_cmd.go:39-63 | re-encoding a decoded value gives the input with its outer bytes replaced by quotes, so a quoted input round-trips exactly |
| `Enrollment.ValidateRequest` | x-pack/agent/pkg/fleetapi/enroll_cmd.go:90-102 | the token violation is reported iff the token is empty, and the type violation iff the type is empty. Violations come in check order, and there are none iff both fields are non-empty |
| `Enrollment.RequestViolationsCharacterised` | x-pack/agent/pkg/fleetapi/enroll_cmd.go:90-102 | any list that reports exactly the failed request checks, in check order, is the validator's answer |
| `Enrollment.RequestReportsEveryViolation` | x-pack/agent/pkg/fleetapi/enroll_cmd.go:93-99 | with both fields missing, both violations are reported, token first |
| `Enrollment.RequestValidationIgnoresOptionalFields` | x-pack/agent/pkg/fleetapi/enroll_cmd.go:76-102 | the shared ID and the metadata never affect request validation |
| `Enrollment.ValidateResponse` | x-pack/agent/pkg/fleetapi/enroll_cmd.go:142-158 | one violation per empty item field among ID, type and access token, in that order. There are none iff all three are non-empty |
| `Enrollment.ResponseViolationsCharacterised` | x-pack/agent/pkg/fleetapi/enroll_cmd.go:142-158 | any list that reports exactly the failed response checks, in check order, is the validator's answer |
| `Enrollment.ResponseReportsEveryViolation` | x-pack/agent/pkg/fleetapi/enroll_cmd.go:145-155 | with all three fields missing, all three violations are reported in the order ID, type, token |
| `Enrollment.ResponseValidationIgnoresOtherFields` | x-pack/agent/pkg/fleetapi/enroll_cmd.go:129-158 | response validation depends only on the item's ID, type and access token |
| `EnrollCmd.EncodeRequest` | x-pack/agent/pkg/fleetapi/enroll_cmd.go:76-81 | request encoding fails iff the type is unregistered. On success the body's type decodes back to the request's type, the shared ID is omitted iff it is empty, the metadata is carried over, and there is no token field |
| `EnrollCmd.HandleOutcome` | x-pack/agent/pkg/fleetapi/enroll_cmd.go:183-203 | a transport error is returned unchanged, and a non-200 status returns the extracted error. A response comes back only from a 200 status whose body decodes to it and validates |
| `EnrollCmd.Execute` | x-pack/agent/pkg/fleetapi/enroll_cmd.go:166-204 | `Send` is called iff the request validates and its type is registered. An invalid request returns its violations, and a valid one with an unregistered type returns the encode error. The one call is a POST to `/api/fleet/agents/enroll` with no query parameters, its only header `kbn-fleet-enrollment-token` holds the token, and its body is the encoded request, whose type decodes back to the request's type. A response is returned only from a 200 status whose body decodes to it and passes validation |
| `EnrollCmd.AfterSend` | x-pack/agent/pkg/fleetapi/enroll_cmd.go:183-203 | after `Send` the result is one of five outcomes, each fixed by what the transport returned: transport error, extracted remote error, wrapped decode error, response violations, or the decoded response |
| `EnrollCmd.UnregisteredTypeFailsBeforeSend` | x-pack/agent/pkg/fleetapi/enroll_cmd.go:170-181 | a request with a token and a non-empty unregistered type passes validation, fails at encoding and sends nothing |
| `EnrollCmd.TokenOnlyInHeader` | x-pack/agent/pkg/fleetapi/enroll_cmd.go:174-183 | two requests that differ only in their token send the same body |
| `EnrollCmd.ExampleRequestIsSent` | x-pack/agent/pkg/fleetapi/enroll_cmd.go:65-81 | the request with token `tok123`, type PERMANENT and empty metadata is sent with body type `"PERMANENT"`, no shared ID, and the token in the header |
| `EnrollCmd.ExampleResponseAccepted` | x-pack/agent/pkg/fleetapi/enroll_cmd.go:104-121 | an OK response decoding to the example body is returned, with item ID `a4937110-e53e-11e9-934f-47a8e38a522c` |
| `EnrollCmd.MissingAccessTokenRefused` | x-pack/agent/pkg/fleetapi/enroll_cmd.go:199-201 | an OK response whose body lacks the access token gives exactly the access-token violation and no response |
| `EnrollCmd.NonOkStatusExtracted` | x-pack/agent/pkg/fleetapi/enroll_cmd.go:189-191 | any non-200 status returns the extractor's error for the body and no response |

## Left out

- `clienter.Send` and the HTTP transport: network I/O outside this file. It is the parameter `send` from the request to an outcome (a transport error, or a status and a body).
- `extract`: the error-body parser is not part of this model. It is the parameter `extract`, an arbitrary function from body to a non-nil error; a nil from `extract` would make `Execute` return neither a response nor an error, and the model does not cover that.
- `json.NewDecoder(...).Decode`: generic JSON decoding, including the `time.Time` parsing of `enrolled_at`. It is the parameter `decode`, an arbitrary partial function from body to response.
- Whole-struct `json.Marshal` of the request, meaning field names, `omitempty` text and layout: library behaviour. The body is modelled field by field (`RequestBody`). Encoding the opaque metadata values never fails in the model.
- `EnrollTypes.JsonString`: models `json.Marshal` only on strings that need no escaping. The escaping rules belong to the library, and every table key is plain (`TableKeysArePlain`).
- The contents of the `map[string]interface{}` and `[]interface{}` fields: dynamic values the core never inspects. They are kept as opaque JSON text (`Dynamic`).
- `defer resp.Body.Close()`: resource release, which has no effect on any returned value.
- The text of `multierror` and `errors.Wrap` messages: library formatting. Errors are labels, and the wrap contexts are the `EncodeFailed` and `DecodeFailed` constructors.
- `NewEnrollCmd`: it only stores the transport, which `Execute` takes as a parameter instead.
