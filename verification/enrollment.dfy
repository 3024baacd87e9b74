/** The enrollment request and response and their structural validation
    (x-pack/agent/pkg/fleetapi/enroll_cmd.go, lines 65-158). */
module Enrollment {
  import opened EnrollTypes
  import opened Subsequences

  /** A value of Go's `interface{}` held in a metadata map or an action
      list: carried through unchanged and never inspected, so only its
      JSON text is kept. */
  datatype Dynamic = Dynamic(json: string)

  /** `Metadata`: locally observed and user-supplied attributes. */
  datatype Metadata = Metadata(local: map<string, Dynamic>, userProvided: map<string, Dynamic>)

  /** `EnrollRequest`. The enrollment token is carried in a header, never
      in the body. */
  datatype EnrollRequest = EnrollRequest(
    enrollmentToken: string,
    enrollType: EnrollType,
    sharedId: string,
    metadata: Metadata)

  /** `EnrollItemResponse`. `enrolledAt` keeps the timestamp's text. */
  datatype EnrollItemResponse = EnrollItemResponse(
    id: string,
    active: bool,
    policyId: string,
    enrollType: EnrollType,
    enrolledAt: string,
    userProvidedMetadata: map<string, Dynamic>,
    localMetadata: map<string, Dynamic>,
    actions: seq<Dynamic>,
    accessToken: string)

  /** `EnrollResponse`. */
  datatype EnrollResponse = EnrollResponse(action: string, success: bool, item: EnrollItemResponse)

  /** One violation reported by a validator; the two validators report the
      same message for a missing enrollment type. */
  datatype Violation =
    | MissingEnrollmentToken
    | MissingEnrollmentType
    | MissingID
    | AccessTokenMissing

  /** The checks of `EnrollRequest.Validate`, in the order it runs them. */
  const RequestChecks: seq<Violation> := [MissingEnrollmentToken, MissingEnrollmentType]

  /** The checks of `EnrollResponse.Validate`, in the order it runs them. */
  const ResponseChecks: seq<Violation> := [MissingID, MissingEnrollmentType, AccessTokenMissing]

  /** Appends `v` to the accumulated violations when `failed` holds: one
      guarded `multierror.Append`. */
  function Check(acc: seq<Violation>, failed: bool, v: Violation): seq<Violation> {
    if failed then acc + [v] else acc
  }

  /** `EnrollRequest.Validate`: every failed check, in check order; the
      request is valid exactly when the list is empty. */
  function ValidateRequest(r: EnrollRequest): (errs: seq<Violation>)
    ensures IsSubsequence(errs, RequestChecks)
    ensures MissingEnrollmentToken in errs <==> |r.enrollmentToken| == 0
    ensures MissingEnrollmentType in errs <==> |r.enrollType.name| == 0
    ensures forall v :: v in errs ==> v in RequestChecks
    ensures errs == [] <==> |r.enrollmentToken| > 0 && |r.enrollType.name| > 0
  {
    var errs := Check([], |r.enrollmentToken| == 0, MissingEnrollmentToken);
    Check(errs, |r.enrollType.name| == 0, MissingEnrollmentType)
  }

  /** `EnrollResponse.Validate`: every failed check, in check order; the
      response is valid exactly when the list is empty. */
  function ValidateResponse(e: EnrollResponse): (errs: seq<Violation>)
    ensures IsSubsequence(errs, ResponseChecks)
    ensures MissingID in errs <==> |e.item.id| == 0
    ensures MissingEnrollmentType in errs <==> |e.item.enrollType.name| == 0
    ensures AccessTokenMissing in errs <==> |e.item.accessToken| == 0
    ensures forall v :: v in errs ==> v in ResponseChecks
    ensures errs == [] <==> |e.item.id| > 0 && |e.item.enrollType.name| > 0 && |e.item.accessToken| > 0
  {
    var errs := Check([], |e.item.id| == 0, MissingID);
    var errs := Check(errs, |e.item.enrollType.name| == 0, MissingEnrollmentType);
    Check(errs, |e.item.accessToken| == 0, AccessTokenMissing)
  }

  /** The request validator's answer is the only list that reports exactly
      the failed checks in check order. */
  lemma RequestViolationsCharacterised(r: EnrollRequest, errs: seq<Violation>)
    requires IsSubsequence(errs, RequestChecks)
    requires MissingEnrollmentToken in errs <==> |r.enrollmentToken| == 0
    requires MissingEnrollmentType in errs <==> |r.enrollType.name| == 0
    ensures errs == ValidateRequest(r)
  {
  }

  /** The response validator's answer is the only list that reports exactly
      the failed checks in check order. */
  lemma ResponseViolationsCharacterised(e: EnrollResponse, errs: seq<Violation>)
    requires IsSubsequence(errs, ResponseChecks)
    requires MissingID in errs <==> |e.item.id| == 0
    requires MissingEnrollmentType in errs <==> |e.item.enrollType.name| == 0
    requires AccessTokenMissing in errs <==> |e.item.accessToken| == 0
    ensures errs == ValidateResponse(e)
  {
  }

  /** Nothing short-circuits: a request missing both fields reports both,
      token first. */
  lemma RequestReportsEveryViolation(r: EnrollRequest)
    requires |r.enrollmentToken| == 0 && |r.enrollType.name| == 0
    ensures ValidateRequest(r) == [MissingEnrollmentToken, MissingEnrollmentType]
  {
  }

  /** Nothing short-circuits: a response missing all three fields reports
      all three, in the order ID, type, token. */
  lemma ResponseReportsEveryViolation(e: EnrollResponse)
    requires |e.item.id| == 0 && |e.item.enrollType.name| == 0 && |e.item.accessToken| == 0
    ensures ValidateResponse(e) == [MissingID, MissingEnrollmentType, AccessTokenMissing]
  {
  }

  /** Request validation looks at the token and the type only. */
  lemma RequestValidationIgnoresOptionalFields(r1: EnrollRequest, r2: EnrollRequest)
    requires r1.enrollmentToken == r2.enrollmentToken && r1.enrollType == r2.enrollType
    ensures ValidateRequest(r1) == ValidateRequest(r2)
  {
  }

  /** Response validation looks at the item's ID, type and access token only. */
  lemma ResponseValidationIgnoresOtherFields(e1: EnrollResponse, e2: EnrollResponse)
    requires e1.item.id == e2.item.id && e1.item.enrollType == e2.item.enrollType
    requires e1.item.accessToken == e2.item.accessToken
    ensures ValidateResponse(e1) == ValidateResponse(e2)
  {
  }
}
