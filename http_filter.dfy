/**
  `HttpExceptionFilter.catch`: every thrown value becomes a JSON error body
  `{ success: false, statusCode, message, errors, path, timestamp }` sent
  with the same status. The clock is a parameter: `timestamp` is the ISO
  string of the moment of the call.
 */
module HttpFilter {
  import opened Wrappers
  import opened Exceptions

  const InternalServerError := 500
  const DefaultMessage := "Internal server error"

  /** The body the filter sends. `message` is `None` for `undefined`, which the
      serialiser leaves out: that is what an empty validation list gives. */
  datatype ErrorBody = ErrorBody(
    success: bool,
    statusCode: int,
    message: Option<string>,
    errors: Option<seq<string>>,
    path: string,
    timestamp: string)

  /** What `response.status(status).json(body)` sends. */
  datatype Reply = Reply(status: int, body: ErrorBody)

  /** The status, message and errors the filter settles on. */
  datatype Outcome = Outcome(status: int, message: Option<string>, errors: Option<seq<string>>)

  /** The case analysis on the thrown value. */
  function Classify(exception: Thrown): (o: Outcome)
    ensures exception.HttpException? ==> o.status == exception.status
    ensures !exception.HttpException? ==> o.status == InternalServerError
    ensures o.errors.Some? <==> exception.HttpException? && exception.response.ResponseObject?
                                && exception.response.message.MessageList?
    ensures o.errors.Some? ==> o.errors.value == exception.response.message.items
    ensures o.message.None? <==> o.errors == Some([])
    ensures exception.HttpException? && exception.response.ResponseText? ==>
              o.message == Some(exception.response.text)
    ensures exception.HttpException? && exception.response.ResponseObject?
            && exception.response.message.MessageText? && exception.response.message.text != "" ==>
              o.message == Some(exception.response.message.text)
    ensures exception.HttpException? && exception.response.ResponseObject?
            && exception.response.message.MessageList? && exception.response.message.items != [] ==>
              o.message == Some(exception.response.message.items[0])
    // `responseObj.message || message`: a falsy or missing message keeps the default
    ensures exception.HttpException?
            && (|| exception.response.ResponseOther?
                || exception.response == ResponseObject(NoMessage)
                || exception.response == ResponseObject(MessageText(""))) ==>
              o.message == Some(DefaultMessage)
    ensures exception.PlainError? ==> o.message == Some(exception.message)
    ensures exception.NotAnError? ==> o.message == Some(DefaultMessage)
  {
    match exception
    case HttpException(status, response) =>
      (match response
       case ResponseText(text) => Outcome(status, Some(text), None)
       case ResponseObject(message) =>
         (match message
          case MessageText(text) => Outcome(status, Some(if text != "" then text else DefaultMessage), None)
          case MessageList(items) => Outcome(status, if items == [] then None else Some(items[0]), Some(items))
          case NoMessage => Outcome(status, Some(DefaultMessage), None))
       case ResponseOther => Outcome(status, Some(DefaultMessage), None))
    case PlainError(message) => Outcome(InternalServerError, Some(message), None)
    case NotAnError => Outcome(InternalServerError, Some(DefaultMessage), None)
  }

  /** `catch(exception, host)` for a request to `url` at `timestamp`. */
  function Catch(exception: Thrown, url: string, timestamp: string): (r: Reply)
    ensures !r.body.success
    ensures r.body.statusCode == r.status
    ensures r.body.path == url && r.body.timestamp == timestamp
    ensures var o := Classify(exception);
            r.status == o.status && r.body.message == o.message && r.body.errors == o.errors
  {
    var o := Classify(exception);
    Reply(o.status, ErrorBody(false, o.status, o.message, o.errors, url, timestamp))
  }

  /** A value that is neither an `HttpException` nor an `Error` is a 500 with
      the default message and no errors; a plain `Error` is a 500 with its own
      message. */
  lemma UnknownThrowsAre500(url: string, timestamp: string, message: string)
    ensures Catch(NotAnError, url, timestamp).status == 500
    ensures Catch(NotAnError, url, timestamp).body.message == Some("Internal server error")
    ensures Catch(NotAnError, url, timestamp).body.errors.None?
    ensures Catch(PlainError(message), url, timestamp).status == 500
    ensures Catch(PlainError(message), url, timestamp).body.message == Some(message)
  {
  }

  /** The exceptions the services throw with a message reach the client with
      their own status and message and no error list. */
  lemma ServiceExceptionsShown(message: string, url: string, timestamp: string)
    requires message != ""
    ensures var r := Catch(BadRequest(message), url, timestamp);
            r.status == 400 && r.body.message == Some(message) && r.body.errors.None?
    ensures var r := Catch(Forbidden(message), url, timestamp);
            r.status == 403 && r.body.message == Some(message) && r.body.errors.None?
    ensures var r := Catch(NotFound(message), url, timestamp);
            r.status == 404 && r.body.message == Some(message) && r.body.errors.None?
    ensures var r := Catch(NotAcceptable(message), url, timestamp);
            r.status == 406 && r.body.message == Some(message) && r.body.errors.None?
    ensures var r := Catch(Conflict(message), url, timestamp);
            r.status == 409 && r.body.message == Some(message) && r.body.errors.None?
  {
  }

  /** A validation failure (an object response whose `message` is a list)
      reports the whole list as `errors` and its first entry as `message`. */
  lemma ValidationListShown(status: int, items: seq<string>, url: string, timestamp: string)
    requires items != []
    ensures var r := Catch(HttpException(status, ResponseObject(MessageList(items))), url, timestamp);
            && r.status == status
            && r.body.errors == Some(items)
            && r.body.message == Some(items[0])
  {
  }
}
