/** Column classification: every result column gets a name and one of three
    categories that decide how its cells are read and encoded. */
module ColumnTypes {
  import opened Odbc

  /** The source's `enum Type`. */
  datatype Type = Float | Int | String

  /** The tags read as floating point. */
  predicate IsFloatTag(t: SqlDataType) {
    t == SqlDouble || t == SqlReal || t == SqlFloat || t == SqlDecimal || t == SqlNumeric
  }

  /** The tags read as 64-bit integers. */
  predicate IsIntTag(t: SqlDataType) {
    t == SqlInteger || t == SqlSmallint
  }

  /** The category of a column's SQL data type; every other tag, BIGINT and
      TINYINT included, falls back to String. */
  function Classify(t: SqlDataType): (c: Type)
    ensures c == Float <==> IsFloatTag(t)
    ensures c == Int <==> IsIntTag(t)
    ensures c == String <==> !IsFloatTag(t) && !IsIntTag(t)
  {
    match t
    case SqlDouble => Float
    case SqlReal => Float
    case SqlFloat => Float
    case SqlDecimal => Float
    case SqlNumeric => Float
    case SqlInteger => Int
    case SqlSmallint => Int
    case _ => String
  }

  /** A column descriptor: the column's name and its category. */
  datatype Descriptor = Descriptor(name: string, typ: Type)

  /** The descriptor obtained from `describe_col(i)`; a failed description
      degrades to ("unknown", String). */
  function DescribeAt(s: Script, i: u16): Descriptor {
    match s.describeCol(i)
    case Ok(c) => Descriptor(c.name, Classify(c.dataType))
    case Err(_) => Descriptor("unknown", String)
  }

  /** The argument `cols` that the executor passes: the reported column count
      cast to u16, plus one (both steps wrap around modulo 2^16). */
  function ColsArg(n: i16): (cols: u16)
    ensures 0 <= n ==> cols as int == n as int + 1
    ensures n == -1 ==> cols == 0
    ensures n < -1 ==> cols as int == n as int + 0x1_0001
  {
    ((n as int % 0x1_0000 + 1) % 0x1_0000) as u16
  }

  /** How many columns `for i in 1..cols` describes. */
  function DescribedCount(cols: u16): nat {
    if cols == 0 then 0 else cols as int - 1
  }

  /** The descriptors for indices i, i+1, ..., cols-1, in that order. */
  function DescriptorsFrom(s: Script, i: nat, cols: u16): (ds: seq<Descriptor>)
    requires 1 <= i
    ensures i <= cols as int ==> |ds| == cols as int - i
    ensures i > cols as int ==> ds == []
    ensures forall k :: 0 <= k < |ds| ==> i + k < cols as int && ds[k] == DescribeAt(s, (i + k) as u16)
    decreases cols as int - i
  {
    if i < cols as int then
      var rest := DescriptorsFrom(s, i + 1, cols);
      var ds := [DescribeAt(s, i as u16)] + rest;
      assert forall k :: 1 <= k < |ds| ==> ds[k] == rest[k - 1];
      ds
    else []
  }

  /** What `get_types(s, cols)` returns: one descriptor per index 1..cols-1. */
  function Descriptors(s: Script, cols: u16): (ds: seq<Descriptor>)
    ensures |ds| == DescribedCount(cols)
    ensures forall k :: 0 <= k < |ds| ==> ds[k] == DescribeAt(s, (k + 1) as u16)
  {
    DescriptorsFrom(s, 1, cols)
  }

  /** Called with the argument the executor computes from a non-negative
      column count n, exactly n columns are described. */
  lemma DescribesReportedColumns(s: Script, n: i16)
    requires 0 <= n
    ensures |Descriptors(s, ColsArg(n))| == n as int
    ensures forall k :: 0 <= k < n as int ==> Descriptors(s, ColsArg(n))[k] == DescribeAt(s, (k + 1) as u16)
  {
  }

  /** `get_types`: describes columns 1..cols-1 in order, never failing. */
  method GetTypes(s: Script, cols: u16) returns (types: seq<Descriptor>)
    ensures types == Descriptors(s, cols)
  {
    types := [];
    var i: nat := 1;
    while i < cols as int
      invariant 1 <= i <= if cols == 0 then 1 else cols as int
      invariant types + DescriptorsFrom(s, i, cols) == DescriptorsFrom(s, 1, cols)
      decreases cols as int - i
    {
      var desc := DescribeAt(s, i as u16);
      assert DescriptorsFrom(s, i, cols) == [desc] + DescriptorsFrom(s, i + 1, cols);
      assert types + DescriptorsFrom(s, i, cols) == (types + [desc]) + DescriptorsFrom(s, i + 1, cols);
      types := types + [desc];
      i := i + 1;
    }
  }
}
