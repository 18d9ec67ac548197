/**
  The values the core throws, as the global exception filter sees them:
  a framework `HttpException` (a status and the response body it was
  built with), a plain `Error`, or anything else.

  The framework's built-in exceptions (`BadRequestException('msg')` and
  the like) carry the object `{ message: 'msg', error, statusCode }`;
  the constructors below build exactly that shape.
 */
module Exceptions {

  /** The `message` property of an exception's response object. */
  datatype MessageField = NoMessage | MessageText(text: string) | MessageList(items: seq<string>)

  /** What `exception.getResponse()` returns. */
  datatype ExceptionResponse =
    | ResponseText(text: string)
    | ResponseObject(message: MessageField)
    | ResponseOther

  datatype Thrown =
    | HttpException(status: int, response: ExceptionResponse)
    | PlainError(message: string)
    | NotAnError

  function BadRequest(message: string): Thrown {
    HttpException(400, ResponseObject(MessageText(message)))
  }

  function Forbidden(message: string): Thrown {
    HttpException(403, ResponseObject(MessageText(message)))
  }

  function NotFound(message: string): Thrown {
    HttpException(404, ResponseObject(MessageText(message)))
  }

  function NotAcceptable(message: string): Thrown {
    HttpException(406, ResponseObject(MessageText(message)))
  }

  function Conflict(message: string): Thrown {
    HttpException(409, ResponseObject(MessageText(message)))
  }
}
