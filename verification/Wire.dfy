/** The messages between cmd/go and its cache process. */
module Wire {
  import opened Basics

  datatype Cmd = CmdGet | CmdPut | CmdClose | Unknown(name: string)

  /** objectId is the older name of outputId; body follows the request as a value of its own. */
  datatype Request = Request(id: int, command: Cmd, actionId: Bytes, outputId: Bytes, objectId: Bytes,
                             bodySize: int, body: Option<Bytes>)

  datatype Result = Result(failed: bool, miss: bool, outputId: Bytes, size: int, timeNanos: int, diskPath: string)

  datatype Response = Response(id: int, result: Result)

  const DONE := Result(false, false, [], 0, 0, "")
  const ERROR := DONE.(failed := true)
  const MISS := DONE.(miss := true)

  /** The JSON values of the request stream. */
  datatype Value = RequestValue(req: Request) | BytesValue(bytes: Bytes) | Malformed

  predicate HasBody(req: Request) {
    req.command == CmdPut && req.bodySize > 0
  }

  /** What the protocol asks of cmd/go: a body for every put of positive size, and of that size. */
  predicate WellFramed(req: Request) {
    if HasBody(req) then req.body.Some? && |req.body.value| == req.bodySize else req.body == None
  }

  function EncodeOne(req: Request): seq<Value>
    requires WellFramed(req)
  {
    [RequestValue(req.(body := None))] + if HasBody(req) then [BytesValue(req.body.value)] else []
  }

  function Encode(reqs: seq<Request>): seq<Value>
    requires forall req | req in reqs :: WellFramed(req)
  {
    if reqs == [] then [] else EncodeOne(reqs[0]) + Encode(reqs[1..])
  }

  /** The fallback to the older name of the output ID. */
  function Normalize(req: Request): Request {
    if req.outputId == [] && req.objectId != [] then req.(outputId := req.objectId) else req
  }

  /** What a handler must see of a request: all of it as sent, and as output ID the one sent, or else the
      one sent under the older name. */
  predicate AsSent(got: Request, sent: Request) {
    && got.id == sent.id && got.command == sent.command && got.actionId == sent.actionId
    && got.objectId == sent.objectId && got.bodySize == sent.bodySize && got.body == sent.body
    && got.outputId == if sent.outputId != [] then sent.outputId else sent.objectId
  }

  lemma NormalizedAsSent(req: Request)
    ensures AsSent(Normalize(req), req)
  {
  }

  /** On the wire, exactly a put of positive size is two values, the request without the body and the body. */
  lemma FramedBySize(req: Request)
    requires WellFramed(req)
    ensures EncodeOne(req) == if req.command == CmdPut && req.bodySize > 0
                              then [RequestValue(req.(body := None)), BytesValue(req.body.value)]
                              else [RequestValue(req)]
    ensures req.command == CmdPut && req.bodySize > 0 ==> |req.body.value| == req.bodySize
  {
  }
}
