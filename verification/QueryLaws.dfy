/** What the answers of queries are, cell by cell, without naming the functions that compute them. */
module QueryLaws {
  import opened Bytes
  import opened RelationalIndex

  /** Comparisons of numbers, of texts, and between the two. */
  lemma ComparesByOrder(x: int, y: int, a: seq<byte>, b: seq<byte>)
    ensures Compares(Lt, Int64(x), Int64(y)) <==> x < y
    ensures Compares(Gt, Int64(x), Int64(y)) <==> x > y
    ensures Compares(Le, Int64(x), Int64(y)) <==> x <= y
    ensures Compares(Ge, Int64(x), Int64(y)) <==> x >= y
    ensures Compares(Eq, Int64(x), Int64(y)) <==> x == y
    ensures Compares(Lt, Text(a), Text(b)) <==> Less(a, b)
    ensures Compares(Gt, Text(a), Text(b)) <==> Less(b, a)
    ensures Compares(Le, Text(a), Text(b)) <==> a == b || Less(a, b)
    ensures Compares(Ge, Text(a), Text(b)) <==> a == b || Less(b, a)
    ensures Compares(Eq, Text(a), Text(b)) <==> a == b
    ensures Compares(Lt, Int64(x), Text(a)) && Compares(Gt, Text(a), Int64(x))
  {
  }

  /** Of two cells exactly one of less, equal and greater holds. */
  lemma ComparesExactlyOne(a: Cell, b: Cell)
    ensures Compares(Lt, a, b) <==> !Compares(Ge, a, b)
    ensures Compares(Gt, a, b) <==> !Compares(Le, a, b)
    ensures Compares(Eq, a, b) <==> Compares(Le, a, b) && Compares(Ge, a, b)
    ensures Compares(Lt, a, b) <==> Compares(Gt, b, a)
  {
    CellLessIsStrictTotal(a, b, a);
    CellLessIsStrictTotal(b, a, b);
  }

  /** The row satisfies the predicate on the column it names. */
  predicate Satisfies(schema: Schema, row: Row, p: Predicate) {
    exists c :: 0 <= c < |schema.columns| && c < |row| && schema.columns[c].name == p.column
                && Compares(p.op, row[c], p.value)
  }

  /** The columns a projection asks for, by name. */
  function Asked(schema: Schema, projection: Projection): seq<string> {
    match projection
    case AllColumns => seq(|schema.columns|, i requires 0 <= i < |schema.columns| => schema.columns[i].name)
    case Columns(names) => names
  }

  /** The answer lists `source` row by row, each cut down to the asked columns in their order. */
  predicate ShowsRows(schema: Schema, source: seq<Row>, projection: Projection, answer: QueryResult) {
    && answer.columns == Asked(schema, projection)
    && |answer.rows| == |source|
    && forall i :: 0 <= i < |source| ==> ShowsRow(schema, source[i], answer.columns, answer.rows[i])
  }

  predicate ShowsRow(schema: Schema, row: Row, columns: seq<string>, shown: Row) {
    |shown| == |columns| && forall j :: 0 <= j < |columns| ==> ShowsCell(schema, row, columns[j], shown[j])
  }

  predicate ShowsCell(schema: Schema, row: Row, column: string, cell: Cell) {
    exists c :: 0 <= c < |schema.columns| && c < |row| && schema.columns[c].name == column && cell == row[c]
  }

  lemma {:induction false} ColumnsFound(schema: Schema, names: seq<string>)
    requires ColumnIndexes(schema, names).Ok?
    ensures var found := ColumnIndexes(schema, names).value;
            forall j :: 0 <= j < |names| ==> found[j] < |schema.columns| && schema.columns[found[j]].name == names[j]
    decreases |names|
  {
    if names != [] { ColumnsFound(schema, names[1..]); }
  }

  lemma ProjectionFound(schema: Schema, projection: Projection)
    requires ResolveProjection(schema, projection).Ok?
    ensures var found := ResolveProjection(schema, projection).value;
            && |found| == |Asked(schema, projection)|
            && forall j :: 0 <= j < |found| ==>
                 found[j] < |schema.columns| && schema.columns[found[j]].name == Asked(schema, projection)[j]
  {
    if projection.Columns? { ColumnsFound(schema, projection.names); }
  }

  lemma AnswerShows(table: Table, source: seq<Row>, projection: Projection)
    requires TableIsValid(table) && ResolveProjection(table.schema, projection).Ok?
    requires forall row :: row in source ==> row in table.rows
    ensures ShowsRows(table.schema, source, projection,
                      Answer(table, source, ResolveProjection(table.schema, projection).value))
  {
    hide KeyOrdered, CellFits, ResolveProjection, Asked;
    var found := ResolveProjection(table.schema, projection).value;
    var answer := Answer(table, source, found);
    ProjectionFound(table.schema, projection);
    assert answer.columns == Asked(table.schema, projection);
    forall i | 0 <= i < |source| ensures ShowsRow(table.schema, source[i], answer.columns, answer.rows[i]) {
      assert source[i] in source;
      assert |source[i]| == |table.schema.columns|;
      forall j | 0 <= j < |found| ensures ShowsCell(table.schema, source[i], answer.columns[j], answer.rows[i][j]) {
        assert answer.rows[i][j] == CellAt(source[i], found[j]);
      }
    }
  }

  lemma SatisfiedExactly(table: Table, row: Row, p: Predicate)
    requires TableIsValid(table) && row in table.rows && Resolve(table.schema, p).Ok?
    ensures Matches(row, Resolve(table.schema, p).value) <==> Satisfies(table.schema, row, p)
  {
    hide Compares, KeyOrdered, CellFits;
    var resolved := Resolve(table.schema, p).value;
    assert |row| == |table.schema.columns|;
    if Satisfies(table.schema, row, p) {
      var c :| 0 <= c < |table.schema.columns| && c < |row| && table.schema.columns[c].name == p.column
               && Compares(p.op, row[c], p.value);
      assert c == resolved.column;
    }
  }

  /** The source rows of an answer: those of the table that qualify, in primary-key order. */
  ghost predicate Selects(table: Table, source: seq<Row>, qualifies: Row -> bool) {
    && (forall row :: row in source <==> row in table.rows && qualifies(row))
    && KeyOrdered(source, table.schema.primaryKey)
  }

  /** A query with one predicate. */
  lemma QueryMeans(table: Table, p: Predicate, projection: Projection) returns (source: seq<Row>)
    requires TableIsValid(table) && Execute(table, p, projection).Ok?
    ensures Selects(table, source, row => Satisfies(table.schema, row, p))
    ensures ShowsRows(table.schema, source, projection, Execute(table, p, projection).value)
  {
    hide TableIsValid, Matches, Satisfies, CellLess, ShowsRows, Answer;
    var resolved := Resolve(table.schema, p).value;
    source := ScanOne(table.rows, resolved);
    ValidTableIsOrdered(table);
    SelectMembers(table.rows, row => Matches(row, resolved));
    SelectKeepsOrder(table.rows, row => Matches(row, resolved), table.schema.primaryKey);
    forall row | row in table.rows ensures Matches(row, resolved) <==> Satisfies(table.schema, row, p) {
      SatisfiedExactly(table, row, p);
    }
    AnswerShows(table, source, projection);
  }

  predicate SatisfiesAll(schema: Schema, row: Row, ps: seq<Predicate>) {
    forall i :: 0 <= i < |ps| ==> Satisfies(schema, row, ps[i])
  }

  predicate SatisfiesAny(schema: Schema, row: Row, ps: seq<Predicate>) {
    exists i :: 0 <= i < |ps| && Satisfies(schema, row, ps[i])
  }

  lemma AllSatisfiedExactly(table: Table, row: Row, ps: seq<Predicate>)
    requires TableIsValid(table) && row in table.rows && ResolveAll(table.schema, ps).Ok?
    ensures var resolved := ResolveAll(table.schema, ps).value;
            && (MatchesAll(row, resolved) <==> SatisfiesAll(table.schema, row, ps))
            && (MatchesAny(row, resolved) <==> SatisfiesAny(table.schema, row, ps))
  {
    hide TableIsValid, Matches, Satisfies, Resolve;
    var resolved := ResolveAll(table.schema, ps).value;
    forall i | 0 <= i < |ps| ensures Matches(row, resolved[i]) <==> Satisfies(table.schema, row, ps[i]) {
      SatisfiedExactly(table, row, ps[i]);
    }
    if MatchesAny(row, resolved) {
      var i :| 0 <= i < |resolved| && Matches(row, resolved[i]);
      assert Satisfies(table.schema, row, ps[i]);
    }
    if SatisfiesAny(table.schema, row, ps) {
      var i :| 0 <= i < |ps| && Satisfies(table.schema, row, ps[i]);
      assert Matches(row, resolved[i]);
    }
  }

  /** A query with several predicates, all of which a row must satisfy. */
  lemma ConjunctionMeans(table: Table, ps: seq<Predicate>, projection: Projection) returns (source: seq<Row>)
    requires TableIsValid(table) && ExecuteConjunctive(table, ps, projection).Ok?
    ensures Selects(table, source, row => SatisfiesAll(table.schema, row, ps))
    ensures ShowsRows(table.schema, source, projection, ExecuteConjunctive(table, ps, projection).value)
  {
    hide TableIsValid, MatchesAll, SatisfiesAll, CellLess, ShowsRows, Answer;
    var resolved := ResolveAll(table.schema, ps).value;
    source := ScanAll(table.rows, resolved);
    ValidTableIsOrdered(table);
    SelectMembers(table.rows, row => MatchesAll(row, resolved));
    SelectKeepsOrder(table.rows, row => MatchesAll(row, resolved), table.schema.primaryKey);
    forall row | row in table.rows ensures MatchesAll(row, resolved) <==> SatisfiesAll(table.schema, row, ps) {
      AllSatisfiedExactly(table, row, ps);
    }
    AnswerShows(table, source, projection);
  }

  /** A query with several predicates, one of which a row must satisfy. */
  lemma DisjunctionMeans(table: Table, ps: seq<Predicate>, projection: Projection) returns (source: seq<Row>)
    requires TableIsValid(table) && ExecuteDisjunctive(table, ps, projection).Ok?
    ensures Selects(table, source, row => SatisfiesAny(table.schema, row, ps))
    ensures ShowsRows(table.schema, source, projection, ExecuteDisjunctive(table, ps, projection).value)
  {
    hide TableIsValid, MatchesAny, SatisfiesAny, CellLess, ShowsRows, Answer;
    var resolved := ResolveAll(table.schema, ps).value;
    source := ScanAny(table.rows, resolved);
    ValidTableIsOrdered(table);
    SelectMembers(table.rows, row => MatchesAny(row, resolved));
    SelectKeepsOrder(table.rows, row => MatchesAny(row, resolved), table.schema.primaryKey);
    forall row | row in table.rows ensures MatchesAny(row, resolved) <==> SatisfiesAny(table.schema, row, ps) {
      AllSatisfiedExactly(table, row, ps);
    }
    AnswerShows(table, source, projection);
  }

  // ---------- which queries are accepted ----------

  predicate Knows(schema: Schema, name: string) {
    exists c :: 0 <= c < |schema.columns| && schema.columns[c].name == name
  }

  lemma {:induction false} ColumnFoundExactly(schema: Schema, name: string, from: nat)
    ensures ColumnIndex(schema, name, from).Ok? <==>
            exists c :: from <= c < |schema.columns| && schema.columns[c].name == name
    decreases |schema.columns| - from
  {
    if from < |schema.columns| { ColumnFoundExactly(schema, name, from + 1); }
  }

  lemma {:induction false} ColumnsFoundExactly(schema: Schema, names: seq<string>)
    ensures ColumnIndexes(schema, names).Ok? <==> forall i :: 0 <= i < |names| ==> Knows(schema, names[i])
    decreases |names|
  {
    if names != [] {
      ColumnFoundExactly(schema, names[0], 0);
      ColumnsFoundExactly(schema, names[1..]);
      assert forall i :: 0 < i < |names| ==> names[i] == names[1..][i - 1];
    }
  }

  /** Every column, or a list of known ones without repetition. */
  lemma ProjectionAcceptedExactly(schema: Schema, projection: Projection)
    ensures ResolveProjection(schema, projection).Ok? <==>
            || projection.AllColumns?
            || (&& projection.names != []
                && (forall i, j :: 0 <= i < j < |projection.names| ==> projection.names[i] != projection.names[j])
                && forall i :: 0 <= i < |projection.names| ==> Knows(schema, projection.names[i]))
  {
    if projection.Columns? { ColumnsFoundExactly(schema, projection.names); }
  }

  /** A known column, and a literal of its type. */
  lemma PredicateAcceptedExactly(schema: Schema, p: Predicate)
    requires SchemaIsValid(schema)
    ensures Resolve(schema, p).Ok? <==>
            exists c :: 0 <= c < |schema.columns| && schema.columns[c].name == p.column
                        && (p.value.Int64? <==> schema.columns[c].ty.IntColumn?)
  {
    ColumnFoundExactly(schema, p.column, 0);
  }
}
