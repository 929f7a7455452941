/** Small shared vocabulary: optional values and the error values the backend passes around. */
module Wrappers {

  datatype Option<+T> = None | Some(value: T)

  /** A Go `error` value as the core sees it: a PostgreSQL driver error (`*pq.Error`),
      carrying its SQLSTATE code and the violated constraint's name, or any other error. */
  datatype Error =
    | PqError(code: string, constraint: string)
    | Message(text: string)

  /** Bytes as Go's `byte`. */
  newtype byte = x: int | 0 <= x < 256
}
