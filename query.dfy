/** The query executor (`do_query`): one statement through prepare, execute,
    describe and the fetch loop, every failure turned into a JSON value. */
module Query {
  import opened Json
  import opened Odbc
  import opened ColumnTypes

  const PreparePrefix := "Can't prepare statement: "
  const ExecutePrefix := "Can't execute query: "
  const FetchResultsPrefix := "Can't fetch results: "
  const FetchDataPrefix := "Can't fetch data: "

  /** The error outcome `[{"Error": prefix + msg}]`. */
  function ErrorValue(prefix: string, msg: string): Value {
    JArray([JObject(map["Error" := JString(prefix + msg)])])
  }

  /** A JSON value of the shape a column of category t produces. */
  predicate HasType(v: Value, t: Type) {
    v.JNull? ||
    match t
    case Float => v.JFloat?
    case Int => v.JInt?
    case String => v.JString?
  }

  /** Reading column i of row r with the `get_data` of category t. */
  function CellValue(s: Script, r: nat, i: nat, t: Type): (c: Res<Value>)
    ensures c.Ok? ==> HasType(c.value, t)
    ensures c.Ok? <==> match t
                       case Float => s.getFloat(r, AsU16(i)).Ok?
                       case Int => s.getInt(r, AsU16(i)).Ok?
                       case String => s.getText(r, AsU16(i)).Ok?
  {
    match t
    case Float => (match s.getFloat(r, AsU16(i))
                   case Err(e) => Err(e)
                   case Ok(None) => Ok(JNull)
                   case Ok(Some(f)) => Ok(FromF64(f)))
    case Int => (match s.getInt(r, AsU16(i))
                 case Err(e) => Err(e)
                 case Ok(None) => Ok(JNull)
                 case Ok(Some(n)) => Ok(JInt(n as int)))
    case String => (match s.getText(r, AsU16(i))
                    case Err(e) => Err(e)
                    case Ok(None) => Ok(JNull)
                    case Ok(Some(x)) => Ok(JString(x)))
  }

  /** The cell of column k of row r, read with column k's category. */
  function Cell(s: Script, r: nat, types: seq<Descriptor>, k: nat): Res<Value>
    requires k < |types|
  {
    CellValue(s, r, k, types[k].typ)
  }

  /** The record-building loop for row r from column j on, starting from the
      entries already inserted in acc; the first failing cell ends it. */
  function RowFrom(s: Script, r: nat, types: seq<Descriptor>, j: nat, acc: map<string, Value>): Res<map<string, Value>>
    requires j <= |types|
    decreases |types| - j
  {
    if j == |types| then Ok(acc)
    else match Cell(s, r, types, j)
      case Err(e) => Err(e)
      case Ok(v) => RowFrom(s, r, types, j + 1, acc[types[j].name := v])
  }

  /** The record for row r. */
  function RowRecord(s: Script, r: nat, types: seq<Descriptor>): Res<map<string, Value>> {
    RowFrom(s, r, types, 0, map[])
  }

  /** The names of columns j, j+1, ... */
  function NamesFrom(types: seq<Descriptor>, j: nat): set<string> {
    set k | j <= k < |types| :: types[k].name
  }

  /** Column k is the last column carrying its name. */
  predicate LastWithName(types: seq<Descriptor>, k: nat)
    requires k < |types|
  {
    forall k' :: k < k' < |types| ==> types[k'].name != types[k].name
  }

  /** Every cell of row r from column j on reads. */
  predicate CellsRead(s: Script, r: nat, types: seq<Descriptor>, j: nat) {
    forall k :: j <= k < |types| ==> Cell(s, r, types, k).Ok?
  }

  /** Column k is the first column from j on whose cell in row r fails. */
  predicate FirstFailingCell(s: Script, r: nat, types: seq<Descriptor>, j: nat, k: nat) {
    j <= k < |types| && Cell(s, r, types, k).Err? &&
    forall k' :: j <= k' < k ==> Cell(s, r, types, k').Ok?
  }

  /** m is acc with the cells of row r from column j on inserted in order. */
  predicate InsertedFrom(s: Script, r: nat, types: seq<Descriptor>, j: nat, acc: map<string, Value>, m: map<string, Value>)
    requires CellsRead(s, r, types, j)
  {
    && m.Keys == acc.Keys + NamesFrom(types, j)
    && (forall k :: j <= k < |types| && LastWithName(types, k) ==> m[types[k].name] == Cell(s, r, types, k).value)
    && (forall key :: key in acc && key !in NamesFrom(types, j) ==> m[key] == acc[key])
  }

  /** Building a record succeeds exactly when every remaining cell reads. */
  lemma {:induction false} RowFromSucceeds(s: Script, r: nat, types: seq<Descriptor>, j: nat, acc: map<string, Value>)
    requires j <= |types|
    ensures RowFrom(s, r, types, j, acc).Ok? <==> CellsRead(s, r, types, j)
    decreases |types| - j
  {
    if j < |types| && Cell(s, r, types, j).Ok? {
      RowFromSucceeds(s, r, types, j + 1, acc[types[j].name := Cell(s, r, types, j).value]);
    }
  }

  /** A built record's keys are the earlier keys plus the remaining names. */
  lemma {:induction false} RowFromKeys(s: Script, r: nat, types: seq<Descriptor>, j: nat, acc: map<string, Value>)
    requires j <= |types| && CellsRead(s, r, types, j)
    ensures RowFrom(s, r, types, j, acc).Ok?
    ensures RowFrom(s, r, types, j, acc).value.Keys == acc.Keys + NamesFrom(types, j)
    decreases |types| - j
  {
    if j < |types| {
      var acc' := acc[types[j].name := Cell(s, r, types, j).value];
      RowFromKeys(s, r, types, j + 1, acc');
      assert NamesFrom(types, j) == {types[j].name} + NamesFrom(types, j + 1);
    }
  }

  /** Building a record leaves the earlier keys of other names as they were. */
  lemma {:induction false} RowFromKeeps(s: Script, r: nat, types: seq<Descriptor>, j: nat, acc: map<string, Value>)
    requires j <= |types| && CellsRead(s, r, types, j)
    ensures RowFrom(s, r, types, j, acc).Ok?
    ensures forall key :: key in acc && key !in NamesFrom(types, j) ==>
      key in RowFrom(s, r, types, j, acc).value && RowFrom(s, r, types, j, acc).value[key] == acc[key]
    decreases |types| - j
  {
    if j < |types| {
      var acc' := acc[types[j].name := Cell(s, r, types, j).value];
      RowFromKeeps(s, r, types, j + 1, acc');
      assert NamesFrom(types, j) == {types[j].name} + NamesFrom(types, j + 1);
    }
  }

  /** In a built record, the last column with a name supplies its value. */
  lemma {:induction false} RowFromLastWins(s: Script, r: nat, types: seq<Descriptor>, j: nat, acc: map<string, Value>)
    requires j <= |types| && CellsRead(s, r, types, j)
    ensures RowFrom(s, r, types, j, acc).Ok?
    ensures forall k :: j <= k < |types| && LastWithName(types, k) ==>
      && types[k].name in RowFrom(s, r, types, j, acc).value
      && RowFrom(s, r, types, j, acc).value[types[k].name] == Cell(s, r, types, k).value
    decreases |types| - j
  {
    if j < |types| {
      var acc' := acc[types[j].name := Cell(s, r, types, j).value];
      RowFromLastWins(s, r, types, j + 1, acc');
      var m := RowFrom(s, r, types, j + 1, acc').value;
      if LastWithName(types, j) {
        assert types[j].name !in NamesFrom(types, j + 1);
        RowFromKeeps(s, r, types, j + 1, acc');
        assert m[types[j].name] == acc'[types[j].name];
      }
    }
  }

  /** A built record holds every column name, the last column of a name
      wins, and what was there before under other names stays. */
  lemma RowFromInserts(s: Script, r: nat, types: seq<Descriptor>, j: nat, acc: map<string, Value>)
    requires j <= |types| && CellsRead(s, r, types, j)
    ensures RowFrom(s, r, types, j, acc).Ok?
    ensures InsertedFrom(s, r, types, j, acc, RowFrom(s, r, types, j, acc).value)
  {
    RowFromKeys(s, r, types, j, acc);
    RowFromKeeps(s, r, types, j, acc);
    RowFromLastWins(s, r, types, j, acc);
  }

  /** A failed record reports the message of its first failing cell. */
  lemma {:induction false} RowFromReportsFirstFailure(s: Script, r: nat, types: seq<Descriptor>, j: nat, acc: map<string, Value>)
    requires j <= |types| && RowFrom(s, r, types, j, acc).Err?
    ensures exists k :: FirstFailingCell(s, r, types, j, k) && RowFrom(s, r, types, j, acc).msg == Cell(s, r, types, k).msg
    decreases |types| - j
  {
    if Cell(s, r, types, j).Err? {
      assert FirstFailingCell(s, r, types, j, j);
    } else {
      var acc' := acc[types[j].name := Cell(s, r, types, j).value];
      RowFromReportsFirstFailure(s, r, types, j + 1, acc');
      var k :| FirstFailingCell(s, r, types, j + 1, k) && RowFrom(s, r, types, j + 1, acc').msg == Cell(s, r, types, k).msg;
      assert FirstFailingCell(s, r, types, j, k);
    }
  }

  /** m is the record of row r: its keys are the column names, and each
      holds the cell of the last column with that name, of that column's
      category. */
  predicate IsRecord(s: Script, r: nat, types: seq<Descriptor>, m: map<string, Value>) {
    && m.Keys == (set k | 0 <= k < |types| :: types[k].name)
    && forall k :: 0 <= k < |types| && LastWithName(types, k) ==>
         && types[k].name in m
         && CellValue(s, r, k, types[k].typ) == Ok(m[types[k].name])
         && HasType(m[types[k].name], types[k].typ)
  }

  /** The record of row r exists exactly when all its cells read, and then
      it is the row's record; otherwise the first failing cell decides
      the message. */
  lemma RecordContents(s: Script, r: nat, types: seq<Descriptor>)
    ensures RowRecord(s, r, types).Ok? <==> CellsRead(s, r, types, 0)
    ensures RowRecord(s, r, types).Ok? ==> IsRecord(s, r, types, RowRecord(s, r, types).value)
    ensures RowRecord(s, r, types).Err? ==>
      exists k :: FirstFailingCell(s, r, types, 0, k) && RowRecord(s, r, types).msg == Cell(s, r, types, k).msg
  {
    RowFromSucceeds(s, r, types, 0, map[]);
    if RowRecord(s, r, types).Ok? {
      RowFromInserts(s, r, types, 0, map[]);
      assert NamesFrom(types, 0) == (set k | 0 <= k < |types| :: types[k].name);
    } else {
      RowFromReportsFirstFailure(s, r, types, 0, map[]);
    }
  }

  /** The fetch loop from the i-th `fetch` call on, with the records of the
      earlier rows gathered in rows. */
  function FetchLoop(s: Script, types: seq<Descriptor>, i: nat, rows: seq<Value>): Value
    decreases |s.fetches| - i
  {
    match Fetch(s, i)
    case NoMoreRows => JArray(rows)
    case FetchError(e) => ErrorValue(FetchResultsPrefix, e)
    case Row =>
      match RowRecord(s, i, types)
      case Err(e) => ErrorValue(FetchDataPrefix, e)
      case Ok(m) => FetchLoop(s, types, i + 1, rows + [JObject(m)])
  }

  /** The descriptors `do_query` obtains once the column count n is known. */
  function QueryTypes(s: Script, n: i16): seq<Descriptor> {
    Descriptors(s, ColsArg(n))
  }

  /** What `do_query` returns for a statement whose driver answers as s. */
  function QueryValue(s: Script): Value {
    match s.prepare
    case Err(e) => ErrorValue(PreparePrefix, e)
    case Ok(_) =>
      match s.exec
      case Err(e) => ErrorValue(ExecutePrefix, e)
      case Ok(NoData) => JArray([])
      case Ok(Data) =>
        match s.numResultCols
        case Err(e) => ErrorValue(FetchResultsPrefix, e)
        case Ok(n) => FetchLoop(s, QueryTypes(s, n), 0, [])
  }

  /** How many `fetch` calls yield a row before the first one that does not. */
  function LeadingRows(f: seq<FetchResult>): (n: nat)
    ensures n <= |f|
    ensures forall r :: 0 <= r < n ==> f[r].Row?
    ensures n < |f| ==> !f[n].Row?
  {
    if f == [] || !f[0].Row? then 0 else 1 + LeadingRows(f[1..])
  }

  /** The number of rows the statement's cursor delivers. */
  function RowCount(s: Script): (n: nat)
    ensures forall r :: 0 <= r < n ==> Fetch(s, r).Row?
    ensures !Fetch(s, n).Row?
  {
    LeadingRows(s.fetches)
  }

  /** Rows i..n-1 all yield their records. */
  predicate RecordsFrom(s: Script, types: seq<Descriptor>, i: nat, n: nat) {
    forall r :: i <= r < n ==> RowRecord(s, r, types).Ok?
  }

  /** When every delivered row yields its record and the cursor then ends,
      the loop returns the gathered rows followed by those n records, in
      fetch order. */
  lemma {:induction false} FetchLoopRows(s: Script, types: seq<Descriptor>, i: nat, rows: seq<Value>)
    requires i <= RowCount(s)
    requires RecordsFrom(s, types, i, RowCount(s)) && Fetch(s, RowCount(s)) == NoMoreRows
    ensures var n, v := RowCount(s), FetchLoop(s, types, i, rows);
      && v.JArray? && |v.items| == |rows| + n - i && v.items[..|rows|] == rows
      && forall r :: i <= r < n ==> v.items[|rows| + r - i] == JObject(RowRecord(s, r, types).value)
    decreases |s.fetches| - i
  {
    if i < RowCount(s) {
      assert Fetch(s, i).Row?;
      var m := RowRecord(s, i, types).value;
      FetchLoopRows(s, types, i + 1, rows + [JObject(m)]);
      var v := FetchLoop(s, types, i, rows);
      assert v.items[..|rows| + 1] == rows + [JObject(m)];
      assert v.items[..|rows|] == (v.items[..|rows| + 1])[..|rows|];
    }
  }

  /** When every delivered row yields its record but the next fetch fails,
      the loop returns that fetch's error, and none of the rows. */
  lemma {:induction false} FetchLoopFetchError(s: Script, types: seq<Descriptor>, i: nat, rows: seq<Value>)
    requires i <= RowCount(s)
    requires RecordsFrom(s, types, i, RowCount(s)) && Fetch(s, RowCount(s)).FetchError?
    ensures FetchLoop(s, types, i, rows) == ErrorValue(FetchResultsPrefix, Fetch(s, RowCount(s)).msg)
    decreases |s.fetches| - i
  {
    if i < RowCount(s) {
      assert Fetch(s, i).Row?;
      FetchLoopFetchError(s, types, i + 1, rows + [JObject(RowRecord(s, i, types).value)]);
    }
  }

  /** When row r0 is the first delivered row whose record fails, the loop
      returns that cell error, and none of the rows. */
  lemma {:induction false} FetchLoopCellError(s: Script, types: seq<Descriptor>, i: nat, rows: seq<Value>, r0: nat)
    requires i <= r0 < RowCount(s)
    requires RecordsFrom(s, types, i, r0) && RowRecord(s, r0, types).Err?
    ensures FetchLoop(s, types, i, rows) == ErrorValue(FetchDataPrefix, RowRecord(s, r0, types).msg)
    decreases |s.fetches| - i
  {
    assert Fetch(s, i).Row?;
    if i < r0 {
      FetchLoopCellError(s, types, i + 1, rows + [JObject(RowRecord(s, i, types).value)], r0);
    }
  }

  /** For a row r whose record fails there is a row r0 <= r whose record
      fails and such that every row before r0 yields its record. */
  lemma {:induction false} FirstFailingRow(s: Script, types: seq<Descriptor>, r: nat) returns (r0: nat)
    requires RowRecord(s, r, types).Err?
    ensures r0 <= r && RecordsFrom(s, types, 0, r0) && RowRecord(s, r0, types).Err?
    decreases r
  {
    if RecordsFrom(s, types, 0, r) {
      r0 := r;
    } else {
      var r' :| 0 <= r' < r && RowRecord(s, r', types).Err?;
      r0 := FirstFailingRow(s, types, r');
    }
  }

  /** The statement reaches the fetch loop: prepared, executed with a
      result set, and its column count read. */
  predicate ReachesFetch(s: Script) {
    s.prepare.Ok? && s.exec == Ok(Data) && s.numResultCols.Ok?
  }

  /** `do_query` stops at the first failing stage, with that stage's message. */
  lemma StageErrors(s: Script)
    ensures s.prepare.Err? ==> QueryValue(s) == ErrorValue(PreparePrefix, s.prepare.msg)
    ensures s.prepare.Ok? && s.exec.Err? ==> QueryValue(s) == ErrorValue(ExecutePrefix, s.exec.msg)
    ensures s.prepare.Ok? && s.exec == Ok(Data) && s.numResultCols.Err? ==>
      QueryValue(s) == ErrorValue(FetchResultsPrefix, s.numResultCols.msg)
  {
  }

  /** A statement without a result set gives the empty array, whatever the
      rest of its script says. */
  lemma NoDataIsEmpty(s: Script)
    requires s.prepare.Ok? && s.exec == Ok(NoData)
    ensures QueryValue(s) == JArray([])
  {
  }

  /** If any cell of any delivered row fails to read, the outcome is the
      single error entry, and no row of the statement survives. */
  lemma NoPartialRows(s: Script, r: nat, k: nat)
    requires ReachesFetch(s)
    requires r < RowCount(s)
    requires k < |QueryTypes(s, s.numResultCols.value)|
    requires Cell(s, r, QueryTypes(s, s.numResultCols.value), k).Err?
    ensures exists m :: QueryValue(s) == ErrorValue(FetchDataPrefix, m)
  {
    var types := QueryTypes(s, s.numResultCols.value);
    RecordContents(s, r, types);
    var r0 := FirstFailingRow(s, types, r);
    FetchLoopCellError(s, types, 0, [], r0);
  }

  /** A failing fetch after fully read rows gives its error, and no rows. */
  lemma FetchErrorDiscardsRows(s: Script)
    requires ReachesFetch(s)
    requires RecordsFrom(s, QueryTypes(s, s.numResultCols.value), 0, RowCount(s))
    requires Fetch(s, RowCount(s)).FetchError?
    ensures QueryValue(s) == ErrorValue(FetchResultsPrefix, Fetch(s, RowCount(s)).msg)
  {
    FetchLoopFetchError(s, QueryTypes(s, s.numResultCols.value), 0, []);
  }

  /** With every delivered row fully read and a clean end of the cursor,
      the loop returns one record per row, in fetch order. */
  lemma AllRecords(s: Script, types: seq<Descriptor>)
    requires forall r :: 0 <= r < RowCount(s) ==> CellsRead(s, r, types, 0)
    requires Fetch(s, RowCount(s)) == NoMoreRows
    ensures FetchLoop(s, types, 0, []).JArray? && |FetchLoop(s, types, 0, []).items| == RowCount(s)
    ensures forall r :: 0 <= r < RowCount(s) ==>
      FetchLoop(s, types, 0, []).items[r].JObject? && IsRecord(s, r, types, FetchLoop(s, types, 0, []).items[r].fields)
  {
    forall r | 0 <= r < RowCount(s) ensures RowRecord(s, r, types).Ok? {
      RowFromSucceeds(s, r, types, 0, map[]);
    }
    FetchLoopRows(s, types, 0, []);
    var v := FetchLoop(s, types, 0, []);
    forall r | 0 <= r < RowCount(s) ensures v.items[r].JObject? && IsRecord(s, r, types, v.items[r].fields) {
      assert v.items[0 + r - 0] == JObject(RowRecord(s, r, types).value);
      RecordContents(s, r, types);
    }
  }

  /** On success there is one record per delivered row, in fetch order;
      the keys of each are the column names, the last column of a name
      wins, and every value has its column's category, read at the
      column's 0-based position. */
  lemma RowsInFetchOrder(s: Script)
    requires ReachesFetch(s)
    requires forall r :: 0 <= r < RowCount(s) ==> CellsRead(s, r, QueryTypes(s, s.numResultCols.value), 0)
    requires Fetch(s, RowCount(s)) == NoMoreRows
    ensures QueryValue(s).JArray? && |QueryValue(s).items| == RowCount(s)
    ensures forall r :: 0 <= r < RowCount(s) ==>
      QueryValue(s).items[r].JObject? && IsRecord(s, r, QueryTypes(s, s.numResultCols.value), QueryValue(s).items[r].fields)
  {
    var types := QueryTypes(s, s.numResultCols.value);
    assert QueryValue(s) == FetchLoop(s, types, 0, []);
    AllRecords(s, types);
  }

  /** A JSON array of row objects: the shape of every outcome. */
  predicate IsRowArray(v: Value) {
    v.JArray? && forall k :: 0 <= k < |v.items| ==> v.items[k].JObject?
  }

  lemma {:induction false} FetchLoopIsRowArray(s: Script, types: seq<Descriptor>, i: nat, rows: seq<Value>)
    requires forall k :: 0 <= k < |rows| ==> rows[k].JObject?
    ensures IsRowArray(FetchLoop(s, types, i, rows))
    decreases |s.fetches| - i
  {
    if Fetch(s, i).Row? && RowRecord(s, i, types).Ok? {
      FetchLoopIsRowArray(s, types, i + 1, rows + [JObject(RowRecord(s, i, types).value)]);
    }
  }

  /** Every failure is turned into data: whatever the driver answers, the
      outcome is a JSON array of objects, never a fault. */
  lemma OutcomeIsRowArray(s: Script)
    ensures IsRowArray(QueryValue(s))
  {
    if ReachesFetch(s) {
      FetchLoopIsRowArray(s, QueryTypes(s, s.numResultCols.value), 0, []);
    }
  }

  /** The encoding does not tell the two kinds of outcome apart: a query
      that succeeds with one text column named "Error" produces exactly the
      value a failed prepare produces. */
  lemma ErrorEntryIsAmbiguous(msg: string)
    ensures exists s: Script :: s.prepare.Ok? && QueryValue(s) == ErrorValue(PreparePrefix, msg)
  {
    var s := Script(
      Ok(()), Ok(Data), Ok(1 as i16),
      (i: u16) => Ok(ColumnDescription("Error", SqlVarchar)),
      [Row],
      (r: nat, i: u16) => Err(""), (r: nat, i: u16) => Err(""),
      (r: nat, i: u16) => Ok(Some(PreparePrefix + msg)));
    var types := QueryTypes(s, 1 as i16);
    assert types == [Descriptor("Error", String)];
    assert RowRecord(s, 0, types) == Ok(map["Error" := JString(PreparePrefix + msg)]);
    assert FetchLoop(s, types, 1, [JObject(map["Error" := JString(PreparePrefix + msg)])])
        == JArray([JObject(map["Error" := JString(PreparePrefix + msg)])]);
    assert QueryValue(s) == ErrorValue(PreparePrefix, msg);
  }

  /** `do_query`: run the k-th statement of the connection, with text q. */
  method DoQuery(conn: Connection, k: nat, q: string) returns (v: Value)
    ensures v == QueryValue(conn.statement(k, q))
  {
    var s := conn.statement(k, q);
    if s.prepare.Err? {
      return ErrorValue(PreparePrefix, s.prepare.msg);
    }
    if s.exec.Err? {
      return ErrorValue(ExecutePrefix, s.exec.msg);
    }
    if s.exec.value == NoData {
      return JArray([]);
    }
    if s.numResultCols.Err? {
      return ErrorValue(FetchResultsPrefix, s.numResultCols.msg);
    }
    var cols := ColsArg(s.numResultCols.value);
    var types := GetTypes(s, cols);
    var rows: seq<Value> := [];
    var r: nat := 0;
    while true
      invariant FetchLoop(s, types, r, rows) == QueryValue(s)
      decreases |s.fetches| - r
    {
      var f := Fetch(s, r);
      if f.FetchError? {
        return ErrorValue(FetchResultsPrefix, f.msg);
      }
      if f.NoMoreRows? {
        break;
      }
      var row: map<string, Value> := map[];
      for i := 0 to |types|
        invariant RowFrom(s, r, types, i, row) == RowRecord(s, r, types)
      {
        var data: Value;
        match types[i].typ {
          case Float =>
            var got := s.getFloat(r, AsU16(i));
            if got.Err? {
              return ErrorValue(FetchDataPrefix, got.msg);
            }
            data := if got.value.Some? then FromF64(got.value.value) else JNull;
          case Int =>
            var got := s.getInt(r, AsU16(i));
            if got.Err? {
              return ErrorValue(FetchDataPrefix, got.msg);
            }
            data := if got.value.Some? then JInt(got.value.value as int) else JNull;
          case String =>
            var got := s.getText(r, AsU16(i));
            if got.Err? {
              return ErrorValue(FetchDataPrefix, got.msg);
            }
            data := if got.value.Some? then JString(got.value.value) else JNull;
        }
        row := row[types[i].name := data];
      }
      rows := rows + [JObject(row)];
      r := r + 1;
    }
    return JArray(rows);
  }
}
