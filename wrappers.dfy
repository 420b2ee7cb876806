/** Failure-carrying results for the database layer. */
module Wrappers {

  datatype Option<+T> = None | Some(value: T)

  /** What the database layer raises, by cause. */
  datatype Error =
    /** sqlite3.OperationalError: the statement text does not parse. */
    | SyntaxError
    /** sqlite3.OperationalError: the statement names a column the table lacks. */
    | NoSuchColumn(column: string)
    /** IndexError: `fetchall()[0]` on a query that matched no row. */
    | NoRow
    /** AssertionError: `len(JDlist) != len(HPlist)` in upsert_HP. */
    | LengthMismatch(jdCount: nat, hpCount: nat)

  datatype Result<+T> = Ok(value: T) | Err(error: Error)

  /** The result of a statement that returns nothing. */
  datatype Outcome = Pass | Fail(error: Error)
}
