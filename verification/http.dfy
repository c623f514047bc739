/**
 What a request handler answers: a success carrying the route's message and
 data, or an error status with its message. A handler that writes also
 returns the database it leaves behind.
 */
module Http {
  import opened Schema

  const BadRequest: nat := 400
  const NotFound: nat := 404
  const ServerError: nat := 500

  datatype Response<T> = Ok(message: string, data: T) | Error(status: nat, message: string)

  datatype Reply<T> = Reply(response: Response<T>, db: Db)

  /** The answer of the route's `catch` block: a constraint the database
      enforces was violated, nothing was written. */
  function Failed<T>(db: Db, message: string): Reply<T> {
    Reply(Error(ServerError, message), db)
  }
}
