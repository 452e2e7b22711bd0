/** The StatusPages configuration of plugins/ErrorHandling.kt: which HTTP answer an exception
    that escapes a route handler turns into. */
module ErrorHandling {
  import opened Wrappers

  /** The exception classes the modelled code throws, told apart the way StatusPages picks a
      handler: `IllegalAccessException` and `BadRequestException` have handlers of their own;
      everything else (`IllegalArgumentException`, `RuntimeException`, database and network
      errors) reaches the handler registered for `Exception`. */
  datatype ExceptionKind = IllegalAccess | BadRequest | IllegalArgument | Runtime | Other

  /** A thrown exception: its class and its (nullable) message. */
  datatype Exception = Exception(kind: ExceptionKind, message: Option<string>)

  const BadRequestStatus: int := 400
  const InternalServerErrorStatus: int := 500

  /** The plain-text answer `call.respondText` sends. */
  datatype TextResponse = TextResponse(status: int, text: string)

  /** What a Kotlin string template prints for a nullable message. */
  function MessageText(message: Option<string>): string
  {
    match message
    case Some(m) => m
    case None => "null"
  }

  /** The exception handler for `e`, most specific first. */
  function Respond(e: Exception): (r: TextResponse)
    ensures r.status == BadRequestStatus <==> e.kind in {IllegalAccess, BadRequest}
    ensures r.status == InternalServerErrorStatus <==> e.kind !in {IllegalAccess, BadRequest}
    ensures exists prefix :: prefix in {"400: ", "401: ", "500: "} && r.text == prefix + MessageText(e.message)
    ensures e.kind == IllegalAccess ==> r.text[..5] == "401: "
    ensures e.kind == BadRequest ==> r.text[..5] == "400: "
    ensures e.kind !in {IllegalAccess, BadRequest} ==> r.text[..5] == "500: "
  {
    match e.kind
    case IllegalAccess => TextResponse(BadRequestStatus, "401: " + MessageText(e.message))
    case BadRequest => TextResponse(BadRequestStatus, "400: " + MessageText(e.message))
    case _ => TextResponse(InternalServerErrorStatus, "500: " + MessageText(e.message))
  }

  /** The message of the exception follows the status prefix unchanged, whatever the class. */
  lemma RespondKeepsMessage(e: Exception, m: string)
    requires e.message == Some(m)
    ensures |Respond(e).text| == 5 + |m|
    ensures Respond(e).text[5..] == m
  {
  }

  /** The handlers' status and the code written in the text agree except for
      `IllegalAccessException`, whose text says 401 while the status is 400. */
  lemma IllegalAccessStatusDiffersFromText(e: Exception)
    requires e.kind == IllegalAccess
    ensures Respond(e).status == 400 && Respond(e).text[..3] == "401"
  {
  }
}
