/**
 * The Kubernetes admission controller: POST /admit receives an
 * AdmissionReview, evaluates a prepared policy query on the pod-creation
 * request and answers with an AdmissionReview carrying the decision. The
 * pod's JSON decoding and the prepared query's evaluation are parameters.
 */
module Admission {
  import opened Wrappers
  import opened Json
  import opened Http

  const StatusSuccess := "Success"
  const StatusFailure := "Failure"
  const ReasonForbidden := "Forbidden"
  const PolicyViolation := "PolicyViolation"
  const AllowedMessage := "Allowed by policy"
  const DeniedMessage := "Denied by policy"
  const DeniedCauseMessage := "Pod creation denied by policy"
  const ReadBodyFailure := "failed to read request body"
  const UnmarshalReviewFailure := "failed to unmarshal admission review request"
  const MarshalFailure := "failed to marshal admission review response"
  const WriteFailure := "failed to write response"

  /** The fields of `metav1.StatusCause`, `StatusDetails` and `Status` that the controller sets; "" is Go's unset string. */
  datatype StatusCause = StatusCause(causeType: string, message: string)
  datatype StatusDetails = StatusDetails(causes: seq<StatusCause>)
  datatype Status = Status(status: string, message: string, reason: string, details: Option<StatusDetails>)

  /** An `AdmissionResponse`: the request's `uid` is the field that would correlate it with the request. */
  datatype AdmissionResponse = AdmissionResponse(uid: string, allowed: bool, result: Option<Status>)

  /** The fields of an `AdmissionRequest` that matter here; `objectRaw` is the pod as raw JSON text. */
  datatype AdmissionRequest = AdmissionRequest(uid: string, namespace: string, operation: string, objectRaw: string)

  /** An `AdmissionReview`; both parts are pointers in Go and may be absent. */
  datatype AdmissionReview = AdmissionReview(request: Option<AdmissionRequest>, response: Option<AdmissionResponse>)

  /** One element of the engine's result set: its variable bindings. */
  datatype EvalResult = EvalResult(bindings: map<string, Json>)

  /** What the handler sends back. */
  datatype AdmitReply =
    | ErrorReply(response: Response)    // written with http.Error
    | ReviewReply(review: AdmissionReview)  // marshalled, status 200
    | NoReply                           // the handler panicked: no response is written

  /** The evaluation input: `{"request": {"namespace", "operation", "object"}}`. */
  function AdmissionQuery(req: AdmissionRequest, pod: Json): (doc: Json)
    ensures doc.Object? && doc.fields.Keys == {"request"}
    ensures Member(doc, "request").Some?
    ensures Member(doc.fields["request"], "namespace") == Some(Str(req.namespace))
    ensures Member(doc.fields["request"], "operation") == Some(Str(req.operation))
    ensures Member(doc.fields["request"], "object") == Some(pod)
    ensures doc.fields["request"].Object? && doc.fields["request"].fields.Keys == {"namespace", "operation", "object"}
  {
    Object(map["request" := Object(map[
      "namespace" := Str(req.namespace),
      "operation" := Str(req.operation),
      "object" := pod])])
  }

  /** The decision: the first result's "allow" binding when it is a boolean, and false in every other case. */
  function Decision(resultSet: seq<EvalResult>): (decision: bool)
    ensures decision <==>
      |resultSet| > 0 && "allow" in resultSet[0].bindings && resultSet[0].bindings["allow"] == Bool(true)
  {
    if |resultSet| > 0 then
      var binding := Member(Object(resultSet[0].bindings), "allow");
      if binding.Some? && binding.value.Bool? then binding.value.b else false
    else false
  }

  /** The review built from a decision (the success path of `admitPodCreation`). */
  function DecisionReview(decision: bool): (review: AdmissionReview)
    ensures review.request.None? && review.response.Some?
    ensures review.response.value.uid == ""
    ensures review.response.value.allowed == decision
    ensures review.response.value.result.Some?
    ensures decision ==> review.response.value.result.value == Status(StatusSuccess, AllowedMessage, "", None)
    ensures !decision ==>
      review.response.value.result.value ==
        Status(StatusFailure, DeniedMessage, ReasonForbidden,
               Some(StatusDetails([StatusCause(PolicyViolation, DeniedCauseMessage)])))
  {
    var result :=
      if decision then Status(StatusSuccess, AllowedMessage, "", None)
      else Status(StatusFailure, DeniedMessage, ReasonForbidden,
                  Some(StatusDetails([StatusCause(PolicyViolation, DeniedCauseMessage)])));
    AdmissionReview(None, Some(AdmissionResponse("", decision, Some(result))))
  }

  /** `toAdmissionResponse`: a refusal carrying the error's text; the incoming review is not consulted. */
  function ToAdmissionResponse(review: AdmissionReview, err: string): (r: AdmissionReview)
    ensures r.request.None? && r.response.Some?
    ensures r.response.value.uid == "" && !r.response.value.allowed
    ensures r.response.value.result == Some(Status(StatusFailure, err, "", None))
  {
    AdmissionReview(None, Some(AdmissionResponse("", false, Some(Status(StatusFailure, err, "", None)))))
  }

  /** A review that a caller can recognise as "policy said no": reason Forbidden and a PolicyViolation cause. */
  predicate IsPolicyDenial(review: AdmissionReview)
  {
    && review.response.Some?
    && !review.response.value.allowed
    && review.response.value.result.Some?
    && review.response.value.result.value.reason == ReasonForbidden
    && review.response.value.result.value.details.Some?
    && exists c :: c in review.response.value.result.value.details.value.causes && c.causeType == PolicyViolation
  }

  /** A deny is a policy denial, an allow and every error response are not: the two refusals can be told apart. */
  lemma DenialIsDistinguishable(review: AdmissionReview, err: string, decision: bool)
    ensures IsPolicyDenial(DecisionReview(decision)) <==> !decision
    ensures !IsPolicyDenial(ToAdmissionResponse(review, err))
  {
  }

  /** `admitPodCreation`; it dereferences the review's request, so the request must be present. */
  function AdmitPodCreation(review: AdmissionReview, decodePod: string -> Result<Json, string>,
                            eval: Json -> Result<seq<EvalResult>, string>): (r: AdmissionReview)
    requires review.request.Some?
    ensures r.request.None? && r.response.Some? && r.response.value.uid == ""
    ensures decodePod(review.request.value.objectRaw).Err? ==>
      r == ToAdmissionResponse(review, "failed to unmarshal pod: " + decodePod(review.request.value.objectRaw).error)
    ensures decodePod(review.request.value.objectRaw).Ok? ==>
      var query := AdmissionQuery(review.request.value, decodePod(review.request.value.objectRaw).value);
      (eval(query).Err? ==> r == ToAdmissionResponse(review, "policy evaluation error: " + eval(query).error)) &&
      (eval(query).Ok? ==> r == DecisionReview(Decision(eval(query).value)))
  {
    var req := review.request.value;
    match decodePod(req.objectRaw)
    case Err(e) => ToAdmissionResponse(review, "failed to unmarshal pod: " + e)
    case Ok(pod) =>
      match eval(AdmissionQuery(req, pod))
      case Err(e) => ToAdmissionResponse(review, "policy evaluation error: " + e)
      case Ok(resultSet) => DecisionReview(Decision(resultSet))
  }

  /** The pod is admitted exactly on a decision true; it is refused as a policy denial exactly on a decision false. */
  lemma AdmitOutcomes(review: AdmissionReview, decodePod: string -> Result<Json, string>,
                      eval: Json -> Result<seq<EvalResult>, string>)
    requires review.request.Some?
    ensures var pod := decodePod(review.request.value.objectRaw);
      var r := AdmitPodCreation(review, decodePod, eval);
      (r.response.value.allowed <==>
        pod.Ok? && eval(AdmissionQuery(review.request.value, pod.value)).Ok? &&
        Decision(eval(AdmissionQuery(review.request.value, pod.value)).value)) &&
      (IsPolicyDenial(r) <==>
        pod.Ok? && eval(AdmissionQuery(review.request.value, pod.value)).Ok? &&
        !Decision(eval(AdmissionQuery(review.request.value, pod.value)).value))
  {
  }

  /** The answer does not depend on the request's uid: no request identity is echoed back. */
  lemma AnswerIgnoresUid(review: AdmissionReview, uid: string, decodePod: string -> Result<Json, string>,
                         eval: Json -> Result<seq<EvalResult>, string>)
    requires review.request.Some?
    ensures AdmitPodCreation(review, decodePod, eval) ==
      AdmitPodCreation(AdmissionReview(Some(review.request.value.(uid := uid)), review.response), decodePod, eval)
  {
  }

  /**
   * `admitHandler`: `body` is the request body, None when it cannot be read;
   * `decodeReview` is the AdmissionReview decoding, None on a decoding error;
   * `marshalFails` and `writeFails` say whether encoding or writing the answer fails.
   * A failed write is the 500 the code asks for; by then `w.Write` has already sent 200.
   */
  function AdmitHandler(body: Option<string>, decodeReview: string -> Option<AdmissionReview>,
                        decodePod: string -> Result<Json, string>,
                        eval: Json -> Result<seq<EvalResult>, string>,
                        marshalFails: bool, writeFails: bool): (r: AdmitReply)
    ensures body.None? ==> r == ErrorReply(HttpError(StatusBadRequest, ReadBodyFailure))
    ensures body.Some? && decodeReview(body.value).None? ==> r == ErrorReply(HttpError(StatusBadRequest, UnmarshalReviewFailure))
    ensures body.Some? && decodeReview(body.value).Some? ==>
      var review := decodeReview(body.value).value;
      (review.request.None? ==> r == NoReply) &&
      (review.request.Some? && marshalFails ==> r == ErrorReply(HttpError(StatusInternalServerError, MarshalFailure))) &&
      (review.request.Some? && !marshalFails && writeFails ==> r == ErrorReply(HttpError(StatusInternalServerError, WriteFailure))) &&
      (review.request.Some? && !marshalFails && !writeFails ==> r == ReviewReply(AdmitPodCreation(review, decodePod, eval)))
  {
    match body
    case None => ErrorReply(HttpError(StatusBadRequest, ReadBodyFailure))
    case Some(text) =>
      match decodeReview(text)
      case None => ErrorReply(HttpError(StatusBadRequest, UnmarshalReviewFailure))
      case Some(review) =>
        if review.request.None? then NoReply
        else
          var answer := AdmitPodCreation(review, decodePod, eval);
          if marshalFails then ErrorReply(HttpError(StatusInternalServerError, MarshalFailure))
          else if writeFails then ErrorReply(HttpError(StatusInternalServerError, WriteFailure))
          else ReviewReply(answer)
  }

  /** A malformed request is answered with 400 before the engine is consulted: its answer is the same for every engine. */
  lemma MalformedRequestSkipsEvaluation(body: Option<string>, decodeReview: string -> Option<AdmissionReview>,
                                        decodePod: string -> Result<Json, string>,
                                        eval1: Json -> Result<seq<EvalResult>, string>,
                                        eval2: Json -> Result<seq<EvalResult>, string>)
    requires body.None? || decodeReview(body.value).None?
    ensures forall m: bool, w: bool ::
      AdmitHandler(body, decodeReview, decodePod, eval1, m, w) == AdmitHandler(body, decodeReview, decodePod, eval2, false, false)
    ensures AdmitHandler(body, decodeReview, decodePod, eval1, false, false).ErrorReply?
    ensures AdmitHandler(body, decodeReview, decodePod, eval1, false, false).response.status == StatusBadRequest
  {
  }
}
