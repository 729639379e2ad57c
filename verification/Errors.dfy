/** The error values of the server. */
module Errors {
  import opened Wrappers

  datatype Method = GET | POST | PUT | DELETE | OPTIONS | HEAD | PATCH | TRACE | ANY

  datatype StartupError = InvalidIp | NoState | InvalidSocketTimeout

  datatype StreamError = UnexpectedEof

  datatype ParseError =
    | NoSeparator | NoMethod | NoPath | NoVersion | NoRequestLine | InvalidQuery | InvalidMethod | InvalidHeader

  /** `R` is the request that a panic carries along. */
  datatype HandleError<R> = NotFound(verb: Method, path: string) | Panic(req: Result<R, Error<R>>, message: string)

  /** `Error::None` is named `Absent` here, to keep it apart from the empty option. */
  datatype Error<R> =
    | Startup(startup: StartupError)
    | Stream(stream: StreamError)
    | Handle(handle: HandleError<R>)
    | Parse(parse: ParseError)
    | Io(text: string)
    | Absent
}
