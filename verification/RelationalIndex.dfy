/** Secondary indexes maintained across commits, and queries answered through them or by scanning. */
module RelationalIndex {
  import opened Bytes

  datatype Result<+T> = Ok(value: T) | Err

  // ---------- cells, rows and tables ----------

  datatype Cell = Int64(number: int) | Text(text: seq<byte>)

  type Row = seq<Cell>

  /** The derived order: integers before texts, each by its own order. */
  predicate CellLess(a: Cell, b: Cell) {
    match a
    case Int64(x) => if b.Int64? then x < b.number else true
    case Text(x) => b.Text? && Less(x, b.text)
  }

  lemma CellLessIsStrictTotal(a: Cell, b: Cell, c: Cell)
    ensures !CellLess(a, a)
    ensures CellLess(a, b) && CellLess(b, c) ==> CellLess(a, c)
    ensures CellLess(a, b) || a == b || CellLess(b, a)
    ensures !(CellLess(a, b) && CellLess(b, a))
  {
    if a.Text? { LessIrreflexive(a.text); }
    if a.Text? && b.Text? {
      LessTotal(a.text, b.text);
      if Less(a.text, b.text) { LessAsymmetric(a.text, b.text); }
    }
    if a.Text? && b.Text? && c.Text? && Less(a.text, b.text) && Less(b.text, c.text) {
      LessTransitive(a.text, b.text, c.text);
    }
  }

  datatype ColumnType = IntColumn | TextColumn

  datatype Column = Column(name: string, ty: ColumnType)

  datatype Schema = Schema(columns: seq<Column>, primaryKey: nat)

  /** Rows in primary-key order, one per key: the iteration order of the ordered row map. */
  datatype Table = Table(schema: Schema, rows: seq<Row>)

  const MAX_TEXT_BYTES: nat := 1048576

  /** What a query asks of a literal. */
  predicate TypeMatches(cell: Cell, ty: ColumnType) {
    cell.Int64? <==> ty.IntColumn?
  }

  /** `validate_cell_type`: what a row or a deleted key must also satisfy. */
  predicate CellFits(cell: Cell, ty: ColumnType) {
    TypeMatches(cell, ty) && (cell.Text? ==> |cell.text| <= MAX_TEXT_BYTES)
  }

  predicate RowFits(schema: Schema, row: Row) {
    |row| == |schema.columns| && forall i :: 0 <= i < |row| ==> CellFits(row[i], schema.columns[i].ty)
  }

  predicate SchemaIsValid(schema: Schema) {
    && 1 <= |schema.columns| <= 64 && schema.primaryKey < |schema.columns|
    && forall i, j :: 0 <= i < j < |schema.columns| ==> schema.columns[i].name != schema.columns[j].name
  }

  function CellAt(row: Row, column: nat): Cell {
    if column < |row| then row[column] else Int64(0)
  }

  predicate KeyOrdered(rows: seq<Row>, key: nat) {
    forall i, j :: 0 <= i < j < |rows| ==> CellLess(CellAt(rows[i], key), CellAt(rows[j], key))
  }

  predicate TableIsValid(table: Table) {
    && SchemaIsValid(table.schema)
    && (forall i :: 0 <= i < |table.rows| ==> RowFits(table.schema, table.rows[i]))
    && KeyOrdered(table.rows, table.schema.primaryKey)
  }

  // ---------- sequences ordered by key ----------

  function Select(rows: seq<Row>, keep: Row -> bool): seq<Row> {
    if rows == [] then []
    else (if keep(rows[0]) then [rows[0]] else []) + Select(rows[1..], keep)
  }

  lemma {:induction false} SelectMembers(rows: seq<Row>, keep: Row -> bool)
    ensures forall row :: row in Select(rows, keep) <==> row in rows && keep(row)
    decreases |rows|
  {
    if rows != [] {
      SelectMembers(rows[1..], keep);
      assert rows == [rows[0]] + rows[1..];
    }
  }

  lemma {:induction false} SelectKeepsOrder(rows: seq<Row>, keep: Row -> bool, key: nat)
    requires KeyOrdered(rows, key)
    ensures KeyOrdered(Select(rows, keep), key)
    decreases |rows|
  {
    hide CellLess;
    if rows != [] {
      SelectKeepsOrder(rows[1..], keep, key);
      SelectMembers(rows[1..], keep);
      var rest := Select(rows[1..], keep);
      forall j | 0 <= j < |rest| ensures CellLess(CellAt(rows[0], key), CellAt(rest[j], key)) {
        assert rest[j] in rows[1..];
        var i :| 0 <= i < |rows[1..]| && rows[1..][i] == rest[j];
        assert rows[i + 1] == rest[j];
      }
    }
  }

  lemma {:induction false} SelectSnoc(rows: seq<Row>, row: Row, keep: Row -> bool)
    ensures Select(rows + [row], keep) == Select(rows, keep) + if keep(row) then [row] else []
    decreases |rows|
  {
    if rows == [] {
      assert rows + [row] == [row];
      assert Select([row][1..], keep) == [];
    } else {
      assert (rows + [row])[1..] == rows[1..] + [row];
      SelectSnoc(rows[1..], row, keep);
    }
  }

  /** Two key-ordered sequences with the same members are the same sequence. */
  lemma {:induction false} OrderedMembersDetermine(a: seq<Row>, b: seq<Row>, key: nat)
    requires KeyOrdered(a, key) && KeyOrdered(b, key)
    requires forall row :: row in a <==> row in b
    ensures a == b
    decreases |a|
  {
    hide CellLess;
    if a == [] {
      assert forall i :: 0 <= i < |b| ==> b[i] in b;
    } else {
      assert a[0] in b && b != [];
      assert b[0] in a;
      FirstIsLeast(a, b[0], key);
      FirstIsLeast(b, a[0], key);
      CellLessIsStrictTotal(CellAt(a[0], key), CellAt(b[0], key), CellAt(a[0], key));
      assert a[0] == b[0];
      forall row ensures row in a[1..] <==> row in b[1..] {
        TailMembers(a, row, key);
        TailMembers(b, row, key);
      }
      OrderedMembersDetermine(a[1..], b[1..], key);
      assert a == [a[0]] + a[1..] && b == [b[0]] + b[1..];
    }
  }

  lemma FirstIsLeast(rows: seq<Row>, row: Row, key: nat)
    requires KeyOrdered(rows, key) && row in rows
    ensures row == rows[0] || CellLess(CellAt(rows[0], key), CellAt(row, key))
  {
    var i :| 0 <= i < |rows| && rows[i] == row;
  }

  lemma TailMembers(rows: seq<Row>, row: Row, key: nat)
    requires KeyOrdered(rows, key) && rows != []
    ensures row in rows[1..] <==> row in rows && row != rows[0]
  {
    hide CellLess;
    if row in rows[1..] {
      var i :| 0 <= i < |rows[1..]| && rows[1..][i] == row;
      assert rows[i + 1] == row;
      CellLessIsStrictTotal(CellAt(row, key), CellAt(row, key), CellAt(row, key));
    }
    if row in rows && row != rows[0] {
      var i :| 0 <= i < |rows| && rows[i] == row;
      assert rows[1..][i - 1] == row;
    }
  }

  /** Rows whose keys differ pairwise. */
  predicate KeysDiffer(rows: seq<Row>, key: nat) {
    forall i, j :: 0 <= i < j < |rows| ==> CellAt(rows[i], key) != CellAt(rows[j], key)
  }

  function InsertByKey(row: Row, rows: seq<Row>, key: nat): (result: seq<Row>)
    ensures forall r :: r in result <==> r == row || r in rows
    ensures |result| == |rows| + 1
  {
    if rows == [] || !CellLess(CellAt(rows[0], key), CellAt(row, key)) then [row] + rows
    else [rows[0]] + InsertByKey(row, rows[1..], key)
  }

  /** `sort_by` on the primary-key cell. */
  function SortByKey(rows: seq<Row>, key: nat): (result: seq<Row>)
    ensures forall r :: r in result <==> r in rows
  {
    if rows == [] then [] else InsertByKey(rows[0], SortByKey(rows[1..], key), key)
  }

  lemma {:induction false} InsertKeepsOrder(row: Row, rows: seq<Row>, key: nat)
    requires KeyOrdered(rows, key)
    requires forall r :: r in rows ==> CellAt(r, key) != CellAt(row, key)
    ensures KeyOrdered(InsertByKey(row, rows, key), key)
    decreases |rows|
  {
    hide CellLess;
    if rows != [] {
      CellLessIsStrictTotal(CellAt(rows[0], key), CellAt(row, key), CellAt(row, key));
      assert rows[0] in rows;
      if CellLess(CellAt(rows[0], key), CellAt(row, key)) {
        InsertKeepsOrder(row, rows[1..], key);
        var rest := InsertByKey(row, rows[1..], key);
        forall j | 0 <= j < |rest| ensures CellLess(CellAt(rows[0], key), CellAt(rest[j], key)) {
          assert rest[j] in rest;
          if rest[j] != row {
            var i :| 0 <= i < |rows[1..]| && rows[1..][i] == rest[j];
            assert rows[i + 1] == rest[j];
          }
        }
      } else {
        forall j | 0 <= j < |rows| ensures CellLess(CellAt(row, key), CellAt(rows[j], key)) {
          if j > 0 { CellLessIsStrictTotal(CellAt(row, key), CellAt(rows[0], key), CellAt(rows[j], key)); }
        }
      }
    }
  }

  lemma {:induction false} SortOrders(rows: seq<Row>, key: nat)
    requires KeysDiffer(rows, key)
    ensures KeyOrdered(SortByKey(rows, key), key)
    decreases |rows|
  {
    if rows != [] {
      SortOrders(rows[1..], key);
      forall r | r in SortByKey(rows[1..], key) ensures CellAt(r, key) != CellAt(rows[0], key) {
        var i :| 0 <= i < |rows[1..]| && rows[1..][i] == r;
        assert rows[i + 1] == r;
      }
      InsertKeepsOrder(rows[0], SortByKey(rows[1..], key), key);
    }
  }

  // ---------- predicates ----------

  datatype CompareOp = Eq | Lt | Le | Gt | Ge

  datatype Predicate = Predicate(column: string, op: CompareOp, value: Cell)

  /** `matches_predicate`. */
  predicate Compares(op: CompareOp, cell: Cell, value: Cell) {
    match op
    case Eq => cell == value
    case Lt => CellLess(cell, value)
    case Le => cell == value || CellLess(cell, value)
    case Gt => CellLess(value, cell)
    case Ge => cell == value || CellLess(value, cell)
  }

  /** A predicate with its column resolved. */
  datatype Resolved = Resolved(column: nat, op: CompareOp, value: Cell)

  predicate Matches(row: Row, p: Resolved) {
    Compares(p.op, CellAt(row, p.column), p.value)
  }

  /** The first position of a column name. */
  function ColumnIndex(schema: Schema, name: string, from: nat): (r: Result<nat>)
    ensures r.Ok? ==> r.value < |schema.columns| && schema.columns[r.value].name == name
    decreases |schema.columns| - from
  {
    if from >= |schema.columns| then Err
    else if schema.columns[from].name == name then Ok(from)
    else ColumnIndex(schema, name, from + 1)
  }

  /** Column lookup and literal type check. */
  function Resolve(schema: Schema, p: Predicate): (r: Result<Resolved>)
    ensures r.Ok? ==> ColumnIndex(schema, p.column, 0) == Ok(r.value.column)
                      && r.value.op == p.op && r.value.value == p.value
  {
    match ColumnIndex(schema, p.column, 0)
    case Err => Err
    case Ok(column) =>
      if TypeMatches(p.value, schema.columns[column].ty) then Ok(Resolved(column, p.op, p.value)) else Err
  }

  function ResolveAll(schema: Schema, ps: seq<Predicate>): (r: Result<seq<Resolved>>)
    ensures r.Ok? ==>
              |r.value| == |ps| && forall i :: 0 <= i < |ps| ==> Resolve(schema, ps[i]) == Ok(r.value[i])
    ensures r.Err? ==> exists i :: 0 <= i < |ps| && Resolve(schema, ps[i]).Err?
  {
    if ps == [] then Ok([])
    else
      match Resolve(schema, ps[0])
      case Err => Err
      case Ok(first) =>
        match ResolveAll(schema, ps[1..])
        case Err =>
          assert exists i :: 0 <= i < |ps[1..]| && Resolve(schema, ps[1..][i]).Err?;
          var i :| 0 <= i < |ps[1..]| && Resolve(schema, ps[1..][i]).Err?;
          assert Resolve(schema, ps[i + 1]).Err?;
          Err
        case Ok(rest) => Ok([first] + rest)
  }

  // ---------- scans: the correctness oracle ----------

  predicate MatchesAll(row: Row, ps: seq<Resolved>) {
    forall i :: 0 <= i < |ps| ==> Matches(row, ps[i])
  }

  predicate MatchesAny(row: Row, ps: seq<Resolved>) {
    exists i :: 0 <= i < |ps| && Matches(row, ps[i])
  }

  function ScanOne(rows: seq<Row>, p: Resolved): seq<Row> {
    Select(rows, row => Matches(row, p))
  }

  function ScanAll(rows: seq<Row>, ps: seq<Resolved>): seq<Row> {
    Select(rows, row => MatchesAll(row, ps))
  }

  function ScanAny(rows: seq<Row>, ps: seq<Resolved>): seq<Row> {
    Select(rows, row => MatchesAny(row, ps))
  }

  // ---------- a materialized index ----------

  /** The indexed column's cells, each with its rows in primary-key order. */
  datatype MaterializedIndex = MaterializedIndex(keyType: ColumnType, primaryKey: nat, column: nat,
                                                 entries: map<Cell, seq<Row>>)

  function RowsWith(rows: seq<Row>, column: nat, cell: Cell): seq<Row> {
    Select(rows, row => CellAt(row, column) == cell)
  }

  ghost predicate EntriesOf(entries: map<Cell, seq<Row>>, rows: seq<Row>, column: nat) {
    && (forall cell :: cell in entries <==> exists i :: 0 <= i < |rows| && CellAt(rows[i], column) == cell)
    && forall cell :: cell in entries ==> entries[cell] == RowsWith(rows, column, cell)
  }

  /** A fresh build over this table. */
  ghost predicate IndexesTable(index: MaterializedIndex, table: Table, column: nat) {
    && column < |table.schema.columns| && index.column == column
    && index.keyType == table.schema.columns[column].ty && index.primaryKey == table.schema.primaryKey
    && EntriesOf(index.entries, table.rows, column)
  }

  /** The table state alone determines the index. */
  lemma IndexIsDetermined(a: MaterializedIndex, b: MaterializedIndex, table: Table, column: nat)
    requires IndexesTable(a, table, column) && IndexesTable(b, table, column)
    ensures a == b
  {
    assert forall cell :: cell in a.entries <==> cell in b.entries;
    assert a.entries == b.entries;
  }

  /** The loop of `MaterializedIndex::build`. */
  method BuildEntries(rows: seq<Row>, column: nat) returns (entries: map<Cell, seq<Row>>)
    ensures EntriesOf(entries, rows, column)
  {
    hide EntriesOf, CellAt, RowsWith;
    entries := map[];
    NoEntries(column);
    assert rows[..0] == [];
    var i := 0;
    while i < |rows|
      invariant 0 <= i <= |rows|
      invariant EntriesOf(entries, rows[..i], column)
    {
      var cell := CellAt(rows[i], column);
      var listed := if cell in entries then entries[cell] else [];
      ghost var before := entries;
      entries := entries[cell := listed + [rows[i]]];
      ExtendEntries(before, rows[..i], rows[i], column);
      assert rows[..i + 1] == rows[..i] + [rows[i]];
      i := i + 1;
    }
    assert rows[..i] == rows;
  }

  lemma NoEntries(column: nat)
    ensures EntriesOf(map[], [], column)
  {
  }

  lemma ExtendEntries(entries: map<Cell, seq<Row>>, rows: seq<Row>, row: Row, column: nat)
    requires EntriesOf(entries, rows, column)
    ensures var cell := CellAt(row, column);
            EntriesOf(entries[cell := (if cell in entries then entries[cell] else []) + [row]], rows + [row], column)
  {
    var own := CellAt(row, column);
    var listed := if own in entries then entries[own] else [];
    var after := entries[own := listed + [row]];
    forall cell ensures RowsWith(rows + [row], column, cell)
                     == RowsWith(rows, column, cell) + if cell == own then [row] else []
    {
      SelectSnoc(rows, row, r => CellAt(r, column) == cell);
    }
    if own !in entries { NoRowsWith(rows, column, own); }
    forall cell
      ensures cell in after <==> exists i :: 0 <= i < |rows + [row]| && CellAt((rows + [row])[i], column) == cell
    {
      if cell in after {
        if cell == own {
          assert CellAt((rows + [row])[|rows|], column) == cell;
        } else {
          var i :| 0 <= i < |rows| && CellAt(rows[i], column) == cell;
          assert CellAt((rows + [row])[i], column) == cell;
        }
      }
    }
  }

  lemma {:induction false} NoRowsWith(rows: seq<Row>, column: nat, cell: Cell)
    requires forall i :: 0 <= i < |rows| ==> CellAt(rows[i], column) != cell
    ensures RowsWith(rows, column, cell) == []
    decreases |rows|
  {
    if rows != [] { NoRowsWith(rows[1..], column, cell); }
  }

  /** `matching_rows`: over every table state, exactly the rows a scan selects, in primary-key order. */
  method MatchingRows(index: MaterializedIndex, op: CompareOp, value: Cell, ghost table: Table)
      returns (r: Result<seq<Row>>)
    requires TableIsValid(table) && IndexesTable(index, table, index.column)
    ensures r.Ok? <==> TypeMatches(value, index.keyType)
    ensures r.Ok? ==> r.value == ScanOne(table.rows, Resolved(index.column, op, value))
  {
    hide *;
    if !TypeMatches(value, index.keyType) {
      return Err;
    }
    var matching: seq<Row> := [];
    var remaining := index.entries.Keys;
    ghost var key, column := index.primaryKey, index.column;
    ValidTableIsOrdered(table);
    SameKey(index, table);
    NothingGathered(table.rows, key, column, op, value, remaining);
    while remaining != {}
      invariant remaining <= index.entries.Keys
      invariant Gathered(matching, table.rows, key, column, op, value, index.entries.Keys - remaining)
      decreases |remaining|
    {
      var cell :| cell in remaining;
      ghost var done := index.entries.Keys - remaining;
      GatherMore(matching, table.rows, key, column, op, value, done, cell);
      EntryRows(index, table, cell);
      remaining := remaining - {cell};
      assert index.entries.Keys - remaining == done + {cell};
      if Compares(op, cell, value) {
        matching := matching + index.entries[cell];
      }
    }
    assert index.entries.Keys - remaining == index.entries.Keys;
    AllGathered(matching, table, index, op, value);
    return Ok(SortByKey(matching, index.primaryKey));
  }

  lemma EntryRows(index: MaterializedIndex, table: Table, cell: Cell)
    requires IndexesTable(index, table, index.column) && cell in index.entries
    ensures index.entries[cell] == RowsWith(table.rows, index.column, cell)
  {
  }

  lemma SameKey(index: MaterializedIndex, table: Table)
    requires IndexesTable(index, table, index.column)
    ensures index.primaryKey == table.schema.primaryKey
  {
  }

  /** The rows found so far: every selected row whose indexed cell was visited, once each. */
  ghost predicate Gathered(matching: seq<Row>, rows: seq<Row>, key: nat, column: nat, op: CompareOp, value: Cell,
                           done: set<Cell>) {
    && (forall row :: row in matching <==>
          row in rows && CellAt(row, column) in done && Matches(row, Resolved(column, op, value)))
    && KeysDiffer(matching, key)
  }

  lemma NothingGathered(rows: seq<Row>, key: nat, column: nat, op: CompareOp, value: Cell, all: set<Cell>)
    ensures Gathered([], rows, key, column, op, value, all - all)
  {
  }

  lemma GatherMore(matching: seq<Row>, rows: seq<Row>, key: nat, column: nat, op: CompareOp, value: Cell,
                   done: set<Cell>, cell: Cell)
    requires KeyOrdered(rows, key) && cell !in done
    requires Gathered(matching, rows, key, column, op, value, done)
    ensures Gathered(if Compares(op, cell, value) then matching + RowsWith(rows, column, cell) else matching,
                     rows, key, column, op, value, done + {cell})
  {
    hide CellLess, KeyOrdered, KeysDiffer, Compares;
    var found := RowsWith(rows, column, cell);
    SelectMembers(rows, row => CellAt(row, column) == cell);
    SelectKeepsOrder(rows, row => CellAt(row, column) == cell, key);
    OrderedKeysDiffer(found, key);
    JoinKeysDiffer(matching, found, rows, key);
  }

  lemma OrderedKeysDiffer(rows: seq<Row>, key: nat)
    requires KeyOrdered(rows, key)
    ensures KeysDiffer(rows, key)
  {
    hide CellLess;
    forall i, j | 0 <= i < j < |rows| ensures CellAt(rows[i], key) != CellAt(rows[j], key) {
      CellLessIsStrictTotal(CellAt(rows[i], key), CellAt(rows[j], key), CellAt(rows[i], key));
    }
  }

  lemma JoinKeysDiffer(a: seq<Row>, b: seq<Row>, rows: seq<Row>, key: nat)
    requires KeysDiffer(a, key) && KeysDiffer(b, key) && KeyOrdered(rows, key)
    requires forall row :: row in a ==> row in rows && row !in b
    requires forall row :: row in b ==> row in rows
    ensures KeysDiffer(a + b, key)
  {
    hide CellLess, KeyOrdered;
    forall i, j | 0 <= i < j < |a + b|
      ensures CellAt((a + b)[i], key) != CellAt((a + b)[j], key)
    {
      if i < |a| <= j {
        assert a[i] in a && b[j - |a|] in b;
        SameKeySameRow(rows, a[i], b[j - |a|], key);
      }
    }
  }

  lemma SameKeySameRow(rows: seq<Row>, a: Row, b: Row, key: nat)
    requires KeyOrdered(rows, key) && a in rows && b in rows
    ensures CellAt(a, key) == CellAt(b, key) ==> a == b
  {
    hide CellLess;
    var i :| 0 <= i < |rows| && rows[i] == a;
    var j :| 0 <= j < |rows| && rows[j] == b;
    CellLessIsStrictTotal(CellAt(a, key), CellAt(b, key), CellAt(a, key));
  }

  lemma AllGathered(matching: seq<Row>, table: Table, index: MaterializedIndex, op: CompareOp, value: Cell)
    requires TableIsValid(table) && IndexesTable(index, table, index.column)
    requires Gathered(matching, table.rows, index.primaryKey, index.column, op, value, index.entries.Keys)
    ensures SortByKey(matching, index.primaryKey) == ScanOne(table.rows, Resolved(index.column, op, value))
  {
    hide CellLess, Compares;
    var p := Resolved(index.column, op, value);
    SortOrders(matching, index.primaryKey);
    SelectMembers(table.rows, row => Matches(row, p));
    SelectKeepsOrder(table.rows, row => Matches(row, p), index.primaryKey);
    forall row | row in table.rows ensures CellAt(row, index.column) in index.entries {
      var i :| 0 <= i < |table.rows| && table.rows[i] == row;
    }
    OrderedMembersDetermine(SortByKey(matching, index.primaryKey), ScanOne(table.rows, p), index.primaryKey);
  }

  // ---------- queries ----------

  datatype Projection = AllColumns | Columns(names: seq<string>)

  datatype QueryResult = QueryResult(columns: seq<string>, rows: seq<Row>)

  function ColumnIndexes(schema: Schema, names: seq<string>): (r: Result<seq<nat>>)
    ensures r.Ok? ==> |r.value| == |names|
  {
    if names == [] then Ok([])
    else
      match ColumnIndex(schema, names[0], 0)
      case Err => Err
      case Ok(first) =>
        match ColumnIndexes(schema, names[1..])
        case Err => Err
        case Ok(rest) => Ok([first] + rest)
  }

  /** `resolve_projection`: no empty list, no duplicate, only known columns. */
  function ResolveProjection(schema: Schema, projection: Projection): Result<seq<nat>> {
    match projection
    case AllColumns => Ok(seq(|schema.columns|, i requires 0 <= i < |schema.columns| => i))
    case Columns(names) =>
      if names == [] || exists i, j :: 0 <= i < j < |names| && names[i] == names[j] then Err
      else ColumnIndexes(schema, names)
  }

  function ProjectRow(row: Row, projection: seq<nat>): Row {
    seq(|projection|, i requires 0 <= i < |projection| => CellAt(row, projection[i]))
  }

  function ProjectRows(rows: seq<Row>, projection: seq<nat>): seq<Row> {
    seq(|rows|, i requires 0 <= i < |rows| => ProjectRow(rows[i], projection))
  }

  function ProjectedNames(schema: Schema, projection: seq<nat>): seq<string> {
    seq(|projection|, i requires 0 <= i < |projection| =>
          if projection[i] < |schema.columns| then schema.columns[projection[i]].name else "")
  }

  function Answer(table: Table, rows: seq<Row>, projection: seq<nat>): QueryResult {
    QueryResult(ProjectedNames(table.schema, projection), ProjectRows(rows, projection))
  }

  /** `query::execute` with one predicate: the scan. */
  function Execute(table: Table, p: Predicate, projection: Projection): Result<QueryResult> {
    match ResolveProjection(table.schema, projection)
    case Err => Err
    case Ok(columns) =>
      match Resolve(table.schema, p)
      case Err => Err
      case Ok(resolved) => Ok(Answer(table, ScanOne(table.rows, resolved), columns))
  }

  /** `query::execute_conjunctive`. */
  function ExecuteConjunctive(table: Table, ps: seq<Predicate>, projection: Projection): Result<QueryResult> {
    if ps == [] then Err
    else
      match ResolveProjection(table.schema, projection)
      case Err => Err
      case Ok(columns) =>
        match ResolveAll(table.schema, ps)
        case Err => Err
        case Ok(resolved) => Ok(Answer(table, ScanAll(table.rows, resolved), columns))
  }

  /** `disjunctive_query::execute_scan`. */
  function ExecuteDisjunctive(table: Table, ps: seq<Predicate>, projection: Projection): Result<QueryResult> {
    if ps == [] then Err
    else
      match ResolveProjection(table.schema, projection)
      case Err => Err
      case Ok(columns) =>
        match ResolveAll(table.schema, ps)
        case Err => Err
        case Ok(resolved) => Ok(Answer(table, ScanAny(table.rows, resolved), columns))
  }

  // ---------- narrowing and joining selections ----------

  /** Filtering one driver's rows by every predicate is filtering all rows. */
  lemma DriverThenAll(rows: seq<Row>, ps: seq<Resolved>, driver: nat, key: nat)
    requires KeyOrdered(rows, key) && driver < |ps|
    ensures Select(ScanOne(rows, ps[driver]), row => MatchesAll(row, ps)) == ScanAll(rows, ps)
  {
    hide CellLess, Matches;
    var narrowed := ScanOne(rows, ps[driver]);
    SelectMembers(rows, row => Matches(row, ps[driver]));
    SelectMembers(narrowed, row => MatchesAll(row, ps));
    SelectMembers(rows, row => MatchesAll(row, ps));
    SelectKeepsOrder(rows, row => Matches(row, ps[driver]), key);
    SelectKeepsOrder(narrowed, row => MatchesAll(row, ps), key);
    SelectKeepsOrder(rows, row => MatchesAll(row, ps), key);
    OrderedMembersDetermine(Select(narrowed, row => MatchesAll(row, ps)), ScanAll(rows, ps), key);
  }

  /** Candidate rows by primary key, as the ordered map of the disjunction executor. */
  ghost predicate Union(candidates: map<Cell, Row>, rows: seq<Row>, ps: seq<Resolved>, key: nat) {
    && (forall cell :: cell in candidates ==> CellAt(candidates[cell], key) == cell)
    && forall row :: row in candidates.Values <==> row in rows && MatchesAny(row, ps)
  }

  lemma NoUnion(rows: seq<Row>, key: nat)
    ensures Union(map[], rows, [], key)
  {
  }

  method AddCandidates(candidates: map<Cell, Row>, found: seq<Row>, key: nat, ghost rows: seq<Row>,
                       ghost ps: seq<Resolved>, ghost p: Resolved) returns (more: map<Cell, Row>)
    requires KeyOrdered(rows, key) && Union(candidates, rows, ps, key) && found == ScanOne(rows, p)
    ensures Union(more, rows, ps + [p], key)
  {
    hide CellLess, Matches, MatchesAny, KeyOrdered, Union;
    more := candidates;
    var i := 0;
    StartCandidates(candidates, found, rows, ps, p, key);
    while i < |found|
      invariant 0 <= i <= |found|
      invariant Adding(more, candidates, found[..i], key)
    {
      PutCandidate(more, candidates, found[..i], found[i], key, rows, ps);
      more := more[CellAt(found[i], key) := found[i]];
      assert found[..i + 1] == found[..i] + [found[i]];
      i := i + 1;
    }
    assert found[..i] == found;
    FinishCandidates(more, candidates, found, rows, ps, p, key);
  }

  /** The rows added so far stand beside the earlier candidates, each under its own key. */
  ghost predicate Adding(more: map<Cell, Row>, candidates: map<Cell, Row>, found: seq<Row>, key: nat) {
    && (forall cell :: cell in more ==> CellAt(more[cell], key) == cell)
    && forall row :: row in more.Values <==> row in candidates.Values || row in found
  }

  lemma StartCandidates(candidates: map<Cell, Row>, found: seq<Row>, rows: seq<Row>, ps: seq<Resolved>, p: Resolved,
                        key: nat)
    requires Union(candidates, rows, ps, key) && found == ScanOne(rows, p)
    ensures Adding(candidates, candidates, found[..0], key)
    ensures forall row :: row in found ==> row in rows
  {
    SelectMembers(rows, row => Matches(row, p));
  }

  lemma FinishCandidates(more: map<Cell, Row>, candidates: map<Cell, Row>, found: seq<Row>, rows: seq<Row>,
                         ps: seq<Resolved>, p: Resolved, key: nat)
    requires Union(candidates, rows, ps, key) && found == ScanOne(rows, p) && Adding(more, candidates, found, key)
    ensures Union(more, rows, ps + [p], key)
  {
    hide Matches, MatchesAny;
    SelectMembers(rows, row => Matches(row, p));
    forall row ensures row in more.Values <==> row in rows && MatchesAny(row, ps + [p]) {
      AnyOfMore(row, ps, p);
    }
  }

  lemma AnyOfMore(row: Row, ps: seq<Resolved>, p: Resolved)
    ensures MatchesAny(row, ps + [p]) <==> MatchesAny(row, ps) || Matches(row, p)
  {
    hide Matches;
    if MatchesAny(row, ps) {
      var i :| 0 <= i < |ps| && Matches(row, ps[i]);
      assert Matches(row, (ps + [p])[i]);
    }
    if Matches(row, p) { assert Matches(row, (ps + [p])[|ps|]); }
  }

  lemma PutCandidate(more: map<Cell, Row>, candidates: map<Cell, Row>, found: seq<Row>, row: Row, key: nat,
                     rows: seq<Row>, ps: seq<Resolved>)
    requires Adding(more, candidates, found, key) && Union(candidates, rows, ps, key) && KeyOrdered(rows, key)
    requires row in rows && forall r :: r in found ==> r in rows
    ensures Adding(more[CellAt(row, key) := row], candidates, found + [row], key)
  {
    hide CellLess, KeyOrdered, MatchesAny;
    var own := CellAt(row, key);
    var after := more[own := row];
    assert after[own] == row;
    if own in more {
      assert more[own] in more.Values;
      SameKeySameRow(rows, more[own], row, key);
    }
    forall r | r in more.Values ensures r in after.Values {
      var cell :| cell in more && more[cell] == r;
      assert cell in after && after[cell] == r;
    }
  }

  /** `candidates.into_values()`: the rows of the ordered map in key order. */
  method OrderedValues(candidates: map<Cell, Row>, key: nat, ghost rows: seq<Row>, ghost ps: seq<Resolved>)
      returns (ordered: seq<Row>)
    requires KeyOrdered(rows, key) && Union(candidates, rows, ps, key)
    ensures ordered == ScanAny(rows, ps)
  {
    hide CellLess, Matches, KeyOrdered, MatchesAny;
    var gathered: seq<Row> := [];
    var remaining := candidates.Keys;
    while remaining != {}
      invariant remaining <= candidates.Keys
      invariant forall row :: row in gathered <==>
                  exists cell :: cell in candidates.Keys - remaining && candidates[cell] == row
      invariant KeysDiffer(gathered, key)
      decreases |remaining|
    {
      var cell :| cell in remaining;
      ghost var done := candidates.Keys - remaining;
      AppendValue(candidates, gathered, done, cell, key);
      remaining := remaining - {cell};
      assert candidates.Keys - remaining == done + {cell};
      gathered := gathered + [candidates[cell]];
    }
    ordered := SortByKey(gathered, key);
    SortOrders(gathered, key);
    SelectMembers(rows, row => MatchesAny(row, ps));
    SelectKeepsOrder(rows, row => MatchesAny(row, ps), key);
    OrderedMembersDetermine(ordered, ScanAny(rows, ps), key);
  }

  lemma AppendValue(candidates: map<Cell, Row>, gathered: seq<Row>, done: set<Cell>, cell: Cell, key: nat)
    requires done <= candidates.Keys && cell in candidates.Keys - done && KeysDiffer(gathered, key)
    requires forall c :: c in candidates ==> CellAt(candidates[c], key) == c
    requires forall row :: row in gathered <==> exists c :: c in done && candidates[c] == row
    ensures KeysDiffer(gathered + [candidates[cell]], key)
    ensures forall row :: row in gathered + [candidates[cell]] <==>
              exists c :: c in done + {cell} && candidates[c] == row
  {
    var next := candidates[cell];
    forall i | 0 <= i < |gathered| ensures CellAt(gathered[i], key) != CellAt(next, key) {
      assert gathered[i] in gathered;
    }
    forall row ensures row in gathered + [next] <==> exists c :: c in done + {cell} && candidates[c] == row {
      if row in gathered {
        var c :| c in done && candidates[c] == row;
        assert c in done + {cell};
      } else if row == next {
        assert cell in done + {cell};
      }
    }
  }

  // ---------- transactions ----------

  datatype RelOp =
    | CreateTable(name: string, schema: Schema)
    | UpsertRow(table: string, row: Row)
    | DeleteRow(table: string, key: Cell)

  type Tables = map<string, Table>

  function Without(rows: seq<Row>, key: nat, cell: Cell): seq<Row> {
    Select(rows, row => CellAt(row, key) != cell)
  }

  function Upserted(rows: seq<Row>, row: Row, key: nat): seq<Row> {
    InsertByKey(row, Without(rows, key, CellAt(row, key)), key)
  }

  /** One operation of `apply_ops`. */
  function ApplyOp(tables: Tables, op: RelOp): Result<Tables> {
    match op
    case CreateTable(name, schema) =>
      if !SchemaIsValid(schema) || name in tables then Err else Ok(tables[name := Table(schema, [])])
    case UpsertRow(name, row) =>
      if name !in tables || !RowFits(tables[name].schema, row) then Err
      else
        var table := tables[name];
        Ok(tables[name := table.(rows := Upserted(table.rows, row, table.schema.primaryKey))])
    case DeleteRow(name, cell) =>
      if name !in tables then Err
      else
        var table := tables[name];
        if table.schema.primaryKey >= |table.schema.columns|
           || !CellFits(cell, table.schema.columns[table.schema.primaryKey].ty)
        then Err
        else Ok(tables[name := table.(rows := Without(table.rows, table.schema.primaryKey, cell))])
  }

  function ApplyOps(tables: Tables, ops: seq<RelOp>): Result<Tables>
    decreases |ops|
  {
    if ops == [] then Ok(tables)
    else
      match ApplyOp(tables, ops[0])
      case Err => Err
      case Ok(next) => ApplyOps(next, ops[1..])
  }

  predicate TablesAreValid(tables: Tables) {
    forall name :: name in tables ==> TableIsValid(tables[name])
  }

  lemma UpsertKeepsTable(table: Table, row: Row)
    requires TableIsValid(table) && RowFits(table.schema, row)
    ensures var after := table.(rows := Upserted(table.rows, row, table.schema.primaryKey)); TableIsValid(after)
  {
    hide CellLess;
    var key := table.schema.primaryKey;
    var rest := Without(table.rows, key, CellAt(row, key));
    SelectMembers(table.rows, r => CellAt(r, key) != CellAt(row, key));
    SelectKeepsOrder(table.rows, r => CellAt(r, key) != CellAt(row, key), key);
    InsertKeepsOrder(row, rest, key);
    var after := InsertByKey(row, rest, key);
    forall i | 0 <= i < |after| ensures RowFits(table.schema, after[i]) {
      assert after[i] in after;
      assert after[i] == row || after[i] in table.rows;
    }
  }

  lemma DeleteKeepsTable(table: Table, cell: Cell)
    requires TableIsValid(table)
    ensures TableIsValid(table.(rows := Without(table.rows, table.schema.primaryKey, cell)))
  {
    hide CellLess;
    var key := table.schema.primaryKey;
    SelectMembers(table.rows, r => CellAt(r, key) != cell);
    SelectKeepsOrder(table.rows, r => CellAt(r, key) != cell, key);
    var after := Without(table.rows, key, cell);
    forall i | 0 <= i < |after| ensures RowFits(table.schema, after[i]) {
      assert after[i] in after;
    }
  }

  lemma OperationKeepsTables(tables: Tables, op: RelOp)
    requires TablesAreValid(tables) && ApplyOp(tables, op).Ok?
    ensures var next := ApplyOp(tables, op).value;
            && TablesAreValid(next)
            && forall name :: name in tables ==> name in next && next[name].schema == tables[name].schema
  {
    hide CellLess, TableIsValid, Upserted, Without, RowFits, SchemaIsValid;
    match op {
      case CreateTable(name, schema) => EmptyTableIsValid(schema);
      case UpsertRow(name, row) => UpsertKeepsTable(tables[name], row);
      case DeleteRow(name, cell) => DeleteKeepsTable(tables[name], cell);
    }
  }

  /** Transactions keep rows in key order, keep every table, and never change a schema. */
  lemma {:induction false} ApplyKeepsTables(tables: Tables, ops: seq<RelOp>)
    requires TablesAreValid(tables) && ApplyOps(tables, ops).Ok?
    ensures var after := ApplyOps(tables, ops).value;
            && TablesAreValid(after)
            && forall name :: name in tables ==> name in after && after[name].schema == tables[name].schema
    decreases |ops|
  {
    hide ApplyOp, TablesAreValid;
    if ops != [] {
      OperationKeepsTables(tables, ops[0]);
      ApplyKeepsTables(ApplyOp(tables, ops[0]).value, ops[1..]);
    }
  }

  // ---------- what a transaction leaves ----------

  function TableOf(op: RelOp): string {
    match op
    case CreateTable(name, _) => name
    case UpsertRow(name, _) => name
    case DeleteRow(name, _) => name
  }

  /** The operation decides which row its table has under `cell`. */
  predicate Decides(op: RelOp, name: string, key: nat, cell: Cell) {
    TableOf(op) == name
    && match op
       case CreateTable(_, _) => true
       case UpsertRow(_, row) => key < |row| && row[key] == cell
       case DeleteRow(_, gone) => gone == cell
  }

  /** One operation, by the rows it leaves. */
  lemma OperationMeans(tables: Tables, op: RelOp)
    requires TablesAreValid(tables) && ApplyOp(tables, op).Ok?
    ensures var after := ApplyOp(tables, op).value;
            && (forall other :: other != TableOf(op) ==>
                  (other in after <==> other in tables) && (other in tables ==> after[other] == tables[other]))
            && TableOf(op) in after
            && match op {
                 case CreateTable(name, schema) =>
                   name !in tables && after[name].schema == schema && forall row :: row !in after[name].rows
                 case UpsertRow(name, row) =>
                   && name in tables && after[name].schema == tables[name].schema
                   && var key := tables[name].schema.primaryKey;
                      && key < |row|
                      && forall r :: r in after[name].rows <==>
                           r == row || (r in tables[name].rows && key < |r| && r[key] != row[key])
                 case DeleteRow(name, cell) =>
                   && name in tables && after[name].schema == tables[name].schema
                   && var key := tables[name].schema.primaryKey;
                      forall r :: r in after[name].rows <==> r in tables[name].rows && key < |r| && r[key] != cell
               }
  {
    hide CellLess, CellFits, KeyOrdered;
    match op {
      case CreateTable(_, _) =>
      case UpsertRow(name, row) => RowsHaveKeys(tables[name]);
        SelectMembers(tables[name].rows, r => CellAt(r, tables[name].schema.primaryKey)
                                              != CellAt(row, tables[name].schema.primaryKey));
      case DeleteRow(name, cell) => RowsHaveKeys(tables[name]);
        SelectMembers(tables[name].rows, r => CellAt(r, tables[name].schema.primaryKey) != cell);
    }
  }

  /** Which operations are accepted. */
  lemma AcceptedExactly(tables: Tables, op: RelOp)
    requires TablesAreValid(tables)
    ensures ApplyOp(tables, op).Ok? <==>
            match op {
              case CreateTable(name, schema) => name !in tables && SchemaIsValid(schema)
              case UpsertRow(name, row) =>
                && name in tables && |row| == |tables[name].schema.columns|
                && forall i :: 0 <= i < |row| ==> CellFits(row[i], tables[name].schema.columns[i].ty)
              case DeleteRow(name, cell) =>
                && name in tables
                && var key := tables[name].schema.primaryKey;
                   key < |tables[name].schema.columns| && CellFits(cell, tables[name].schema.columns[key].ty)
            }
  {
    hide CellFits, KeyOrdered;
  }

  lemma RowsHaveKeys(table: Table)
    requires TableIsValid(table)
    ensures forall row :: row in table.rows ==> table.schema.primaryKey < |row|
    ensures table.schema.primaryKey < |table.schema.columns|
  {
    hide CellLess;
  }

  /** The operation at `i` is the last one to decide the row under `cell`. */
  predicate DecidesLast(ops: seq<RelOp>, i: nat, name: string, key: nat, cell: Cell) {
    && i < |ops| && Decides(ops[i], name, key, cell)
    && forall j :: i < j < |ops| ==> !Decides(ops[j], name, key, cell)
  }

  /** The rows under each key after a transaction: that of the last deciding operation, or the old one. */
  ghost predicate Leaves(before: Tables, ops: seq<RelOp>, after: Tables) {
    && (forall name :: name in before ==> name in after && after[name].schema == before[name].schema)
    && forall name, row, cell :: name in after ==>
         Stored(after, name, row, cell) == StoredAfter(before, ops, name, after[name].schema.primaryKey, row, cell)
  }

  predicate Stored(tables: Tables, name: string, row: Row, cell: Cell) {
    name in tables && row in tables[name].rows
    && var key := tables[name].schema.primaryKey; key < |row| && row[key] == cell
  }

  ghost predicate StoredAfter(before: Tables, ops: seq<RelOp>, name: string, key: nat, row: Row, cell: Cell) {
    if forall i: nat :: !DecidesLast(ops, i, name, key, cell) then Stored(before, name, row, cell)
    else exists i: nat :: DecidesLast(ops, i, name, key, cell) && ops[i] == UpsertRow(name, row)
  }

  lemma DecidesLater(o: RelOp, rest: seq<RelOp>, i: nat, name: string, key: nat, cell: Cell)
    ensures DecidesLast([o] + rest, i + 1, name, key, cell) <==> DecidesLast(rest, i, name, key, cell)
  {
    var ops := [o] + rest;
    assert forall j :: 0 <= j < |rest| ==> ops[j + 1] == rest[j];
    if DecidesLast(rest, i, name, key, cell) {
      forall j | i + 1 < j < |ops| ensures !Decides(ops[j], name, key, cell) {
        assert ops[j] == rest[j - 1];
      }
    }
    if DecidesLast(ops, i + 1, name, key, cell) {
      forall j | i < j < |rest| ensures !Decides(rest[j], name, key, cell) {
        assert ops[j + 1] == rest[j];
      }
    }
  }

  lemma {:induction false} SomeDecidesLast(ops: seq<RelOp>, name: string, key: nat, cell: Cell)
    requires forall i: nat :: !DecidesLast(ops, i, name, key, cell)
    ensures forall i :: 0 <= i < |ops| ==> !Decides(ops[i], name, key, cell)
    decreases |ops|
  {
    if ops != [] {
      assert ops == [ops[0]] + ops[1..];
      forall i: nat ensures !DecidesLast(ops[1..], i, name, key, cell) {
        DecidesLater(ops[0], ops[1..], i, name, key, cell);
      }
      SomeDecidesLast(ops[1..], name, key, cell);
      assert !DecidesLast(ops, 0, name, key, cell);
      assert forall j :: 0 < j < |ops| ==> ops[j] == ops[1..][j - 1];
    }
  }

  /** One operation, seen through the rows under one key. */
  lemma OperationStores(tables: Tables, op: RelOp, name: string, row: Row, cell: Cell)
    requires TablesAreValid(tables) && ApplyOp(tables, op).Ok? && name in ApplyOp(tables, op).value
    ensures var after := ApplyOp(tables, op).value;
            var key := after[name].schema.primaryKey;
            Stored(after, name, row, cell)
            == if Decides(op, name, key, cell) then op == UpsertRow(name, row) else Stored(tables, name, row, cell)
  {
    hide ApplyOp, TablesAreValid;
    OperationMeans(tables, op);
  }

  /** What follows the first operation decides, unless nothing in it does. */
  lemma FirstThenRest(before: Tables, next: Tables, o: RelOp, rest: seq<RelOp>, name: string, key: nat, row: Row,
                      cell: Cell)
    requires Stored(next, name, row, cell)
          == if Decides(o, name, key, cell) then o == UpsertRow(name, row) else Stored(before, name, row, cell)
    ensures StoredAfter(next, rest, name, key, row, cell) == StoredAfter(before, [o] + rest, name, key, row, cell)
  {
    hide Stored, Decides;
    var ops := [o] + rest;
    forall i: nat
      ensures DecidesLast(ops, i + 1, name, key, cell) <==> DecidesLast(rest, i, name, key, cell)
      ensures i < |rest| ==> ops[i + 1] == rest[i]
    {
      DecidesLater(o, rest, i, name, key, cell);
    }
    if i: nat :| DecidesLast(rest, i, name, key, cell) {
      assert DecidesLast(ops, i + 1, name, key, cell);
      forall j: nat | DecidesLast(ops, j, name, key, cell) ensures j == i + 1 {}
      forall j: nat | DecidesLast(rest, j, name, key, cell) ensures j == i {}
    } else {
      SomeDecidesLast(rest, name, key, cell);
      forall j: nat ensures DecidesLast(ops, j, name, key, cell) <==> j == 0 && Decides(o, name, key, cell) {
        if j > 0 { assert !DecidesLast(rest, j - 1, name, key, cell); }
      }
      if Decides(o, name, key, cell) {
        assert DecidesLast(ops, 0, name, key, cell) && ops[0] == o;
        assert (exists i: nat :: DecidesLast(ops, i, name, key, cell) && ops[i] == UpsertRow(name, row))
          <==> o == UpsertRow(name, row);
      }
    }
  }

  lemma NextStores(tables: Tables, op: RelOp, name: string, key: nat, row: Row, cell: Cell)
    requires TablesAreValid(tables) && ApplyOp(tables, op).Ok?
    requires name in ApplyOp(tables, op).value ==> key == ApplyOp(tables, op).value[name].schema.primaryKey
    ensures Stored(ApplyOp(tables, op).value, name, row, cell)
         == if Decides(op, name, key, cell) then op == UpsertRow(name, row) else Stored(tables, name, row, cell)
  {
    hide ApplyOp, TablesAreValid;
    OperationKeepsTables(tables, op);
    if name in ApplyOp(tables, op).value {
      OperationStores(tables, op, name, row, cell);
    } else {
      OperationMeans(tables, op);
    }
  }

  /** Over a whole transaction. */
  lemma {:induction false} TransactionLeaves(tables: Tables, ops: seq<RelOp>)
    requires TablesAreValid(tables) && ApplyOps(tables, ops).Ok?
    ensures Leaves(tables, ops, ApplyOps(tables, ops).value)
    decreases |ops|
  {
    hide ApplyOp, TablesAreValid, Stored, Decides;
    var after := ApplyOps(tables, ops).value;
    if ops != [] {
      var next, rest := ApplyOp(tables, ops[0]).value, ops[1..];
      OperationKeepsTables(tables, ops[0]);
      TransactionLeaves(next, rest);
      assert ops == [ops[0]] + rest;
      forall name, row, cell | name in after
        ensures Stored(after, name, row, cell)
             == StoredAfter(tables, ops, name, after[name].schema.primaryKey, row, cell)
      {
        var key := after[name].schema.primaryKey;
        NextStores(tables, ops[0], name, key, row, cell);
        FirstThenRest(tables, next, ops[0], rest, name, key, row, cell);
      }
    }
  }

  lemma EmptyTableIsValid(schema: Schema)
    requires SchemaIsValid(schema)
    ensures TableIsValid(Table(schema, []))
  {
  }

  // ---------- the engine ----------

  datatype IndexSpec = IndexSpec(table: string, column: string)

  /** Every registered index is a fresh build over its table. */
  ghost predicate IndexesAreFresh(indexes: map<IndexSpec, MaterializedIndex>, tables: Tables) {
    forall spec :: spec in indexes ==>
      && spec.table in tables
      && var column := ColumnIndex(tables[spec.table].schema, spec.column, 0);
         column.Ok? && IndexesTable(indexes[spec], tables[spec.table], column.value)
  }

  class MaintainedIndexEngine {
    var tables: Tables
    var indexes: map<IndexSpec, MaterializedIndex>

    ghost predicate Valid()
      reads this
    {
      TablesAreValid(tables) && IndexesAreFresh(indexes, tables)
    }

    constructor ()
      ensures Valid() && tables == map[] && indexes == map[]
    {
      tables := map[];
      indexes := map[];
    }

    /** `MaterializedIndex::build`. */
    method Build(spec: IndexSpec) returns (r: Result<MaterializedIndex>)
      ensures r.Ok? <==> spec.table in tables && ColumnIndex(tables[spec.table].schema, spec.column, 0).Ok?
      ensures r.Ok? ==>
                IndexesTable(r.value, tables[spec.table], ColumnIndex(tables[spec.table].schema, spec.column, 0).value)
    {
      if spec.table !in tables {
        return Err;
      }
      var table := tables[spec.table];
      var found := ColumnIndex(table.schema, spec.column, 0);
      if found.Err? {
        return Err;
      }
      var entries := BuildEntries(table.rows, found.value);
      return Ok(MaterializedIndex(table.schema.columns[found.value].ty, table.schema.primaryKey, found.value, entries));
    }

    method RegisterIndex(table: string, column: string) returns (r: Result<()>)
      requires Valid()
      modifies this`indexes
      ensures Valid()
      ensures r.Ok? <==>
                && IndexSpec(table, column) !in old(indexes) && table in tables
                && ColumnIndex(tables[table].schema, column, 0).Ok?
      ensures indexes.Keys == old(indexes).Keys + if r.Ok? then {IndexSpec(table, column)} else {}
    {
      var spec := IndexSpec(table, column);
      if spec in indexes {
        return Err;
      }
      var built := Build(spec);
      if built.Err? {
        return Err;
      }
      indexes := indexes[spec := built.value];
      return Ok(());
    }

    /** `commit`: all operations or none; every registered index is rebuilt from the committed state. */
    method Commit(ops: seq<RelOp>, durable: bool) returns (r: Result<()>)
      requires Valid()
      modifies this
      ensures Valid() && indexes.Keys == old(indexes).Keys
      ensures r.Ok? <==> ops != [] && |ops| <= 1024 && durable && ApplyOps(old(tables), ops).Ok?
      ensures r.Ok? ==> tables == ApplyOps(old(tables), ops).value && Leaves(old(tables), ops, tables)
      ensures r.Err? ==> tables == old(tables) && indexes == old(indexes)
    {
      hide TableIsValid, ApplyOp, Leaves;
      if ops == [] || |ops| > 1024 {
        return Err;
      }
      var candidate := ApplyOps(tables, ops);
      if candidate.Err? || !durable {
        return Err;
      }
      ApplyKeepsTables(tables, ops);
      TransactionLeaves(tables, ops);
      tables := candidate.value;
      RebuildIndexes();
      return Ok(());
    }

    /** `rebuild_indexes`, after a commit that kept every indexed table and column. */
    method RebuildIndexes()
      requires TablesAreValid(tables)
      requires forall spec :: spec in indexes ==>
                 spec.table in tables && ColumnIndex(tables[spec.table].schema, spec.column, 0).Ok?
      modifies this`indexes
      ensures Valid() && indexes.Keys == old(indexes).Keys
    {
      hide TableIsValid, IndexesTable;
      ghost var registered := indexes;
      var remaining := indexes.Keys;
      var rebuilt: map<IndexSpec, MaterializedIndex> := map[];
      while remaining != {}
        invariant indexes == registered && remaining <= indexes.Keys && rebuilt.Keys == indexes.Keys - remaining
        invariant IndexesAreFresh(rebuilt, tables)
        decreases |remaining|
      {
        var spec :| spec in remaining;
        assert spec in indexes;
        var built := Build(spec);
        rebuilt := rebuilt[spec := built.value];
        remaining := remaining - {spec};
      }
      indexes := rebuilt;
    }

    /** `execute`: through a registered index if there is one, with the scan's answer either way. */
    method ExecuteQuery(name: string, p: Predicate, projection: Projection) returns (r: Result<QueryResult>)
      requires Valid()
      ensures r == if name in tables then Execute(tables[name], p, projection) else Err
    {
      hide TableIsValid, ScanOne;
      var spec := IndexSpec(name, p.column);
      if spec in indexes {
        var index := indexes[spec];
        var table := tables[name];
        var columns := ResolveProjection(table.schema, projection);
        if columns.Err? {
          return Err;
        }
        var rows := MatchingRows(index, p.op, p.value, table);
        if rows.Err? {
          return Err;
        }
        return Ok(Answer(table, rows.value, columns.value));
      }
      if name !in tables {
        return Err;
      }
      return Execute(tables[name], p, projection);
    }

    /** `execute_conjunctive`: one index drives, every predicate filters; the scan's answer either way. */
    method ExecuteAll(name: string, ps: seq<Predicate>, projection: Projection) returns (r: Result<QueryResult>)
      requires Valid()
      ensures r == if name in tables then ExecuteConjunctive(tables[name], ps, projection) else Err
    {
      hide TableIsValid, ScanOne, ScanAll, CellLess;
      if name !in tables || ps == [] {
        return Err;
      }
      var table := tables[name];
      var columns, resolved := ResolveProjection(table.schema, projection), ResolveAll(table.schema, ps);
      if columns.Err? || resolved.Err? {
        return Err;
      }
      var i := 0;
      while i < |ps|
        invariant 0 <= i <= |ps|
      {
        var spec := IndexSpec(name, ps[i].column);
        if spec in indexes {
          assert Resolve(table.schema, ps[i]) == Ok(resolved.value[i]);
          var rows := MatchingRows(indexes[spec], ps[i].op, ps[i].value, table);
          DriverFits(table, ps[i], resolved.value[i]);
          ValidTableIsOrdered(table);
          DriverThenAll(table.rows, resolved.value, i, table.schema.primaryKey);
          return Ok(Answer(table, Select(rows.value, row => MatchesAll(row, resolved.value)), columns.value));
        }
        i := i + 1;
      }
      return ExecuteConjunctive(table, ps, projection);
    }

    /** `disjunctive_query::execute_indexed`: per-predicate candidates united by primary key, in key order. */
    method ExecuteAny(name: string, ps: seq<Predicate>, projection: Projection) returns (r: Result<QueryResult>)
      requires Valid()
      ensures r == if name in tables then ExecuteDisjunctive(tables[name], ps, projection) else Err
    {
      hide TableIsValid, ScanOne, ScanAny, CellLess, Union;
      if name !in tables || ps == [] {
        return Err;
      }
      var table := tables[name];
      var columns, resolved := ResolveProjection(table.schema, projection), ResolveAll(table.schema, ps);
      if columns.Err? || resolved.Err? {
        return Err;
      }
      ValidTableIsOrdered(table);
      var key := table.schema.primaryKey;
      var candidates: map<Cell, Row> := map[];
      NoUnion(table.rows, key);
      var i := 0;
      while i < |ps|
        invariant 0 <= i <= |ps|
        invariant Union(candidates, table.rows, resolved.value[..i], key)
      {
        assert Resolve(table.schema, ps[i]) == Ok(resolved.value[i]);
        var found := ExecuteQuery(name, ps[i], AllColumns);
        WholeRows(table, ScanOne(table.rows, resolved.value[i]), resolved.value[i]);
        candidates := AddCandidates(candidates, found.value.rows, key, table.rows, resolved.value[..i],
                                    resolved.value[i]);
        assert resolved.value[..i + 1] == resolved.value[..i] + [resolved.value[i]];
        i := i + 1;
      }
      assert resolved.value[..i] == resolved.value;
      var rows := OrderedValues(candidates, key, table.rows, resolved.value);
      return Ok(Answer(table, rows, columns.value));
    }
  }

  lemma ValidTableIsOrdered(table: Table)
    requires TableIsValid(table)
    ensures KeyOrdered(table.rows, table.schema.primaryKey)
  {
  }

  lemma DriverFits(table: Table, p: Predicate, resolved: Resolved)
    requires Resolve(table.schema, p) == Ok(resolved)
    ensures resolved.column < |table.schema.columns| && TypeMatches(p.value, table.schema.columns[resolved.column].ty)
    ensures resolved == Resolved(resolved.column, p.op, p.value)
  {
  }

  /** Projecting every column gives the rows themselves. */
  lemma WholeRows(table: Table, rows: seq<Row>, p: Resolved)
    requires TableIsValid(table) && rows == ScanOne(table.rows, p)
    ensures ResolveProjection(table.schema, AllColumns).Ok?
    ensures ProjectRows(rows, ResolveProjection(table.schema, AllColumns).value) == rows
  {
    hide CellLess, Matches;
    var all := ResolveProjection(table.schema, AllColumns).value;
    SelectMembers(table.rows, row => Matches(row, p));
    forall i | 0 <= i < |rows| ensures ProjectRow(rows[i], all) == rows[i] {
      assert rows[i] in rows;
      var j :| 0 <= j < |table.rows| && table.rows[j] == rows[i];
      assert RowFits(table.schema, table.rows[j]);
    }
  }
}
