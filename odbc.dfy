/** The part of the ODBC driver the bridge talks to, as a scripted oracle.
    A `Script` fixes, for one statement, what every driver call answers;
    nothing here models how a real driver computes those answers. */
module Odbc {
  import opened Json

  newtype i16 = x: int | -0x8000 <= x < 0x8000
  newtype u16 = x: int | 0 <= x < 0x1_0000
  newtype i64 = x: int | -0x8000_0000_0000_0000 <= x < 0x8000_0000_0000_0000

  /** Rust's `n as u16` for a non-negative index: keeps the low 16 bits. */
  function AsU16(n: nat): (r: u16)
    ensures n < 0x1_0000 ==> r as int == n
  {
    (n % 0x1_0000) as u16
  }

  /** A driver call either succeeds or fails with a diagnostic message. */
  datatype Res<T> = Ok(value: T) | Err(msg: string)

  /** The SQL data-type tags this model distinguishes. The driver's own
      enumeration may have more; any further tag would get the String
      category, like every tag here outside the seven numeric ones. */
  datatype SqlDataType =
    | SqlUnknownType
    | SqlChar
    | SqlNumeric
    | SqlDecimal
    | SqlInteger
    | SqlSmallint
    | SqlFloat
    | SqlReal
    | SqlDouble
    | SqlDatetime
    | SqlVarchar
    | SqlExtTimeOrInterval
    | SqlExtTimestamp
    | SqlExtLongvarchar
    | SqlExtBinary
    | SqlExtVarbinary
    | SqlExtLongvarbinary
    | SqlExtBigint
    | SqlExtTinyint
    | SqlExtBit
    | SqlExtWchar
    | SqlExtWvarchar
    | SqlExtWlongvarchar
    | SqlExtGuid

  /** What `describe_col` reports about one result column. */
  datatype ColumnDescription = ColumnDescription(name: string, dataType: SqlDataType)

  /** The two successful outcomes of `exec_direct`. */
  datatype ExecResult = NoData | Data

  /** One call of `fetch`: a row cursor, the end of the result set, or a failure. */
  datatype FetchResult = Row | NoMoreRows | FetchError(msg: string)

  /** The driver's answers for one statement. Rows are numbered 0, 1, ... in
      fetch order; `getFloat(r, i)` is `get_data::<f64>(i)` on row r, and
      `None` stands for SQL NULL. */
  datatype Script = Script(
    prepare: Res<()>,
    exec: Res<ExecResult>,
    numResultCols: Res<i16>,
    describeCol: u16 -> Res<ColumnDescription>,
    fetches: seq<FetchResult>,
    getFloat: (nat, u16) -> Res<Option<F64>>,
    getInt: (nat, u16) -> Res<Option<i64>>,
    getText: (nat, u16) -> Res<Option<string>>)

  datatype Option<T> = None | Some(value: T)

  /** The result of the r-th call of `fetch`; once the scripted calls are
      used up the driver keeps reporting the end of the result set. */
  function Fetch(s: Script, r: nat): FetchResult {
    if r < |s.fetches| then s.fetches[r] else NoMoreRows
  }

  /** An open connection: `statement(k, q)` is the script of the k-th
      statement prepared on it (counting from 0), executed with text q. */
  datatype Connection = Connection(statement: (nat, string) -> Script)
}
