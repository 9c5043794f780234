/** The slice of HTTP the handlers use: a status code and a reply body. */
module Http {

  datatype StatusCode = Ok | Created | BadRequest | NotFound | InternalServerError

  datatype Reply<+T> = Reply(status: StatusCode, body: T)
}
