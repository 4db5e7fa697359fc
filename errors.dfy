/** Errors raised by the forum core: the entity validators throw plain
    `Error`s whose message is a code, the repositories throw the domain
    errors (NotFound, Authorization), the JavaScript runtime throws a
    RangeError for an invalid date and the SQL store rejects rows that
    break a constraint. */
module Errors {

  datatype ErrorKind =
    | Plain          // `new Error(code)`, thrown by an entity validator
    | Invariant      // InvariantError: the client sent invalid input
    | NotFound       // NotFoundError: a referenced thread or comment is absent
    | Authorization  // AuthorizationError: the caller does not own the resource
    | Range          // RangeError from the JavaScript runtime
    | Database       // an error reported by the SQL store

  datatype Error = Error(kind: ErrorKind, message: string)

  /** The outcome of an operation that yields a value or throws. */
  datatype Result<+T> = Ok(value: T) | Err(error: Error) {
    predicate IsFailure() { Err? }
    function PropagateFailure<U>(): Result<U> requires Err? { Err(error) }
    function Extract(): T requires Ok? { value }
  }

  /** The outcome of an operation that only succeeds or throws. */
  datatype Outcome = Pass | Fail(error: Error)

  const ThreadNotFound := Error(NotFound, "thread tidak ditemukan")
  const CommentNotFound := Error(NotFound, "komentar tidak ditemukan")
  const NotCommentOwner := Error(Authorization, "Anda tidak berhak menghapus komentar ini")

  /** What `Date.prototype.toISOString` throws for an invalid date. */
  const InvalidTimeValue := Error(Range, "Invalid time value")

  /** A row whose primary key is already taken. */
  const DuplicateKey := Error(Database, "duplicate key value violates unique constraint")
  /** A row with an undefined value in a NOT NULL column. */
  const NotNullViolation := Error(Database, "null value violates not-null constraint")
}
