/** Values shared by the three resources: optional values (a JavaScript field that
    may be `undefined`), the errors the services raise, and the result of a
    service operation against its table. */
module Results {

  /** `None` is JavaScript's `undefined`: a field that is absent or unset. */
  datatype Option<+T> = None | Some(value: T)

  /** The error classes of the services. `InvalidRange` and `DuplicateKey` are the
      two `BadRequestError` messages of the salary service ("Invalid salary date
      range", "Salary already exists"); `NotFound` is `ResourceNotFoundError`.
      `UnknownColumn` is the database refusing a statement that names a column
      its table does not have; `EmptyUpdate` is the query builder refusing an
      UPDATE that sets no column, before any SQL is sent; `KeyTaken` is the
      database refusing an INSERT whose primary key a stored row already has. */
  datatype Error = InvalidRange | DuplicateKey | NotFound | UnknownColumn | EmptyUpdate | KeyTaken

  /** A value or the error that was thrown instead of returning it. */
  datatype Result<+T> = Ok(value: T) | Err(error: Error)

  /** What one service operation does to its table: the value it returns (or the
      error it throws), the table afterwards, and the store calls it issued, in order. */
  datatype Effect<+T, +Row, +Call> = Effect(result: Result<T>, rows: seq<Row>, calls: seq<Call>)

  // The three lemmas below are facts about sequences, not about the service. They
  // only help the verifier: a method builds its call log one step at a time, and
  // these let it compare that log with the one its specification builds at once.
  // Stated as lemmas they are proved once, in a small context; the same equalities
  // asserted inside the service methods cost the solver far more.

  /** Appending the calls of two steps one after the other, or both at once. */
  lemma AppendCalls<Call>(log: seq<Call>, first: seq<Call>, rest: seq<Call>)
    ensures log + first + rest == log + (first + rest)
  {
  }

  /** A log of two calls, put together from two one-call logs. */
  lemma TwoCalls<Call>(a: Call, b: Call)
    ensures [a] + [b] == [a, b]
  {
  }

  /** A log of three calls, however it was put together. */
  lemma ThreeCalls<Call>(a: Call, b: Call, c: Call)
    ensures [a] + [b, c] == [a, b, c]
    ensures [a, b] + [c] == [a, b, c]
  {
  }
}

/** Calendar dates. The source works with JavaScript `Date` values at midnight UTC;
    here a date is the number of days since 1970-01-01, so that comparing two dates
    is comparing two integers. */
module Dates {

  type Date = int
}
