/**
 * The Docker gateway's action path, GET /run/{imageName}: ask the policy
 * engine whether the image may run, and start it with `docker run` only when
 * the engine answers with the boolean true. The engine (an HTTP POST to the
 * engine's `main/docker/allow` document) and `docker run` are parameters:
 * functions from what is sent to what comes back.
 */
module DockerGate {
  import opened Wrappers
  import opened Json
  import opened Http

  const NotBoolean := "policy evaluation did not return a boolean result"
  const ImageNotAllowed := "Policy violation: Image not allowed"
  const RunningPrefix := "Container running with image "

  /** What the engine's HTTP endpoint gives back for one query. */
  datatype EngineReply =
    | PostFailed(err: string)    // the POST itself failed
    | Unparseable(err: string)   // the reply body is not JSON
    | Body(doc: Json)            // the reply body, parsed

  /** Why no verdict could be obtained; each is a 500, none is a deny. */
  datatype QueryError =
    | Transport(msg: string)
    | Decode(msg: string)
    | NotBooleanResult

  /** `err.Error()` of the error `queryOPA` returns. */
  function ErrorText(e: QueryError): string
  {
    match e
    case Transport(msg) => msg
    case Decode(msg) => msg
    case NotBooleanResult => NotBoolean
  }

  /** What `docker run` reports. */
  datatype RunResult = Started | RunFailed(err: string)

  /** A response, and the `docker` command lines that were run to produce it. */
  datatype GateResult = GateResult(response: Response, launched: seq<seq<string>>)

  /** The input document: `{"input": {"docker_image": {"name": imageName}}}`. */
  function OpaQuery(imageName: string): (doc: Json)
    ensures doc.Object? && doc.fields.Keys == {"input"}
    ensures doc.fields["input"].Object? && doc.fields["input"].fields.Keys == {"docker_image"}
    ensures var image := doc.fields["input"].fields["docker_image"];
      image.Object? && image.fields.Keys == {"name"}
    ensures QueriedImage(doc) == Some(imageName)
  {
    Object(map["input" := Object(map["docker_image" := Object(map["name" := Str(imageName)])])])
  }

  /** The image a query document asks about, read back along the path `input.docker_image.name`. */
  function QueriedImage(doc: Json): Option<string>
  {
    match Member(doc, "input")
    case None => None
    case Some(input) =>
      match Member(input, "docker_image")
      case None => None
      case Some(image) =>
        match Member(image, "name")
        case Some(Str(name)) => Some(name)
        case _ => None
  }

  /** Distinct images give distinct queries: the engine always learns which image is asked about. */
  lemma OpaQueryInjective(a: string, b: string)
    requires OpaQuery(a) == OpaQuery(b)
    ensures a == b
  {
  }

  /** Go's decoding into `map[string]interface{}`: an object, or `null` as the empty (nil) map. */
  function DecodeObject(doc: Json): Result<map<string, Json>, string>
  {
    match doc
    case Object(fields) => Ok(fields)
    case Null => Ok(map[])
    case _ => Err("json: cannot unmarshal " + KindName(doc) + " into Go value of type map[string]interface {}")
  }

  /** The reply is a JSON object whose "result" member is the boolean `b`. */
  predicate CarriesVerdict(reply: EngineReply, b: bool)
  {
    reply.Body? && reply.doc.Object? && "result" in reply.doc.fields && reply.doc.fields["result"] == Bool(b)
  }

  /** The result extraction of `queryOPA`: a verdict exactly when "result" holds a boolean. */
  function InterpretReply(reply: EngineReply): (r: Result<bool, QueryError>)
    ensures r.Ok? ==> CarriesVerdict(reply, r.value)
    ensures forall b :: CarriesVerdict(reply, b) ==> r == Ok(b)
    ensures reply.PostFailed? ==> r == Err(Transport(reply.err))
    ensures reply.Unparseable? ==> r == Err(Decode(reply.err))
    ensures reply.Body? && !(reply.doc.Object? || reply.doc.Null?) ==>
      r == Err(Decode("json: cannot unmarshal " + KindName(reply.doc) + " into Go value of type map[string]interface {}"))
    ensures reply.Body? && (reply.doc.Object? || reply.doc.Null?) && r.Err? ==> r == Err(NotBooleanResult)
  {
    match reply
    case PostFailed(e) => Err(Transport(e))
    case Unparseable(e) => Err(Decode(e))
    case Body(doc) =>
      match DecodeObject(doc)
      case Err(e) => Err(Decode(e))
      case Ok(result) =>
        if "result" in result && result["result"].Bool? then Ok(result["result"].b) else Err(NotBooleanResult)
  }

  /** `queryOPA(imageName)`: the engine is asked about the query document and its reply interpreted. */
  function QueryOpa(imageName: string, engine: Json -> EngineReply): (r: Result<bool, QueryError>)
    ensures r.Ok? <==> exists b :: CarriesVerdict(engine(OpaQuery(imageName)), b)
    ensures r.Ok? ==> CarriesVerdict(engine(OpaQuery(imageName)), r.value)
  {
    InterpretReply(engine(OpaQuery(imageName)))
  }

  /** The command line `exec.Command("docker", "run", "--rm", "-d", imageName)` runs. */
  function DockerCommand(imageName: string): seq<string>
  {
    ["docker", "run", "--rm", "-d", imageName]
  }

  /** `runDockerContainer`: the gate between the verdict and `docker run`. */
  function RunDockerContainer(imageName: string, engine: Json -> EngineReply, docker: seq<string> -> RunResult): (r: GateResult)
    ensures QueryOpa(imageName, engine).Err? ==>
      r == GateResult(HttpError(StatusInternalServerError, ErrorText(QueryOpa(imageName, engine).error)), [])
    ensures QueryOpa(imageName, engine) == Ok(false) ==>
      r == GateResult(HttpError(StatusForbidden, ImageNotAllowed), [])
    ensures QueryOpa(imageName, engine) == Ok(true) ==>
      r.launched == [DockerCommand(imageName)] &&
      r.response == match docker(DockerCommand(imageName))
        case Started => Response(StatusOK, RunningPrefix + imageName)
        case RunFailed(e) => HttpError(StatusInternalServerError, e)
  {
    var verdict := QueryOpa(imageName, engine);
    if verdict.Err? then
      GateResult(HttpError(StatusInternalServerError, ErrorText(verdict.error)), [])
    else if !verdict.value then
      GateResult(HttpError(StatusForbidden, ImageNotAllowed), [])
    else
      var command := DockerCommand(imageName);
      match docker(command)
      case RunFailed(e) => GateResult(HttpError(StatusInternalServerError, e), [command])
      case Started => GateResult(Response(StatusOK, RunningPrefix + imageName), [command])
  }

  /** A container is started only when the engine's reply carries the verdict true. */
  lemma DenyNeverRuns(imageName: string, engine: Json -> EngineReply, docker: seq<string> -> RunResult)
    ensures RunDockerContainer(imageName, engine, docker).launched != [] <==> CarriesVerdict(engine(OpaQuery(imageName)), true)
  {
  }

  /** A 200 means the engine allowed the image and `docker run` started it; nothing else gives one. */
  lemma SuccessMeansStarted(imageName: string, engine: Json -> EngineReply, docker: seq<string> -> RunResult)
    ensures RunDockerContainer(imageName, engine, docker).response.status == StatusOK <==>
      CarriesVerdict(engine(OpaQuery(imageName)), true) && docker(DockerCommand(imageName)) == Started
  {
  }
}
