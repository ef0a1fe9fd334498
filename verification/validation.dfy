/**
 * Running a learner's query and grading it against a reference query
 * (`display_sql_results`, `validate_sql_query`). The relational engine is
 * not modelled: an `Engine` is the session store seen as a function from
 * statement text to what running it gives. It is deterministic and does not
 * change between two runs of the same text.
 */
module QueryValidation {
  import opened Tables
  import opened RowSort
  import opened Whitespace
  import opened ColumnUniquify

  datatype Option<T> = None | Some(value: T)

  /**
   * What the engine does with a statement: a result table; nothing to fetch,
   * for a statement that runs but returns no result set (an `INSERT`, a
   * `CREATE TABLE`), whose cursor has no column description; or an error
   * message.
   */
  datatype ExecResult = Rows(table: Table) | NoResultSet | EngineError(message: string)

  type Engine = string -> ExecResult

  /**
   * The failures the validator catches: the engine rejecting a query, a
   * statement without a result set (reading its column description fails),
   * or the data frame refusing to sort by a column label that occurs twice.
   */
  datatype Failure = QueryFailed(message: string) | MissingDescription | LabelNotUnique(column: string)

  /** The failure raised when reading a query's result does not give a table. */
  function Caught(r: ExecResult): Failure
    requires !r.Rows?
  {
    if r.EngineError? then QueryFailed(r.message) else MissingDescription
  }

  datatype SortResult = SortedTable(table: Table) | SortFailed(failure: Failure)

  /** The label at position `i` occurs at some other position too. */
  ghost predicate Repeated(columns: seq<string>, i: int)
    requires 0 <= i < |columns|
  {
    exists j :: 0 <= j < |columns| && j != i && columns[j] == columns[i]
  }

  /**
   * The first position at `from` or later whose label is repeated, or
   * `|columns|` if there is none: sorting by the labels in order stops at
   * the first label that does not name a single column.
   */
  function FirstRepeated(columns: seq<string>, from: nat): (k: nat)
    requires from <= |columns|
    ensures from <= k <= |columns|
    ensures k < |columns| ==> Repeated(columns, k)
    ensures forall i :: from <= i < k ==> !Repeated(columns, i)
    decreases |columns| - from
  {
    if from == |columns| then from
    else if columns[from] in columns[..from] || columns[from] in columns[from + 1..] then
      assert Repeated(columns, from) by {
        if columns[from] in columns[..from] {
          var j :| 0 <= j < from && columns[..from][j] == columns[from];
        } else {
          var j :| 0 <= j < |columns| - from - 1 && columns[from + 1..][j] == columns[from];
          assert columns[from + 1 + j] == columns[from];
        }
      }
      from
    else
      assert !Repeated(columns, from) by {
        forall j | 0 <= j < |columns| && j != from ensures columns[j] != columns[from] {
          if j < from {
            assert columns[j] == columns[..from][j];
          } else {
            assert columns[j] == columns[from + 1..][j - from - 1];
          }
        }
      }
      FirstRepeated(columns, from + 1)
  }

  /**
   * Sorting a table ascending by its own column list, every column a key in
   * column order: the rows come out ordered and rearranged, the labels stay;
   * a label that occurs twice makes the sort fail.
   */
  function SortByOwnColumns(t: Table): (r: SortResult)
    ensures r.SortedTable? <==> Distinct(t.columns)
    ensures r.SortedTable? ==> r.table.columns == t.columns && Sorted(r.table.rows)
                               && multiset(r.table.rows) == multiset(t.rows)
    ensures r.SortFailed? ==> r.failure.LabelNotUnique?
                              && (exists i :: 0 <= i < |t.columns| && t.columns[i] == r.failure.column
                                                                   && Repeated(t.columns, i)
                                                                   && forall j :: 0 <= j < i ==> !Repeated(t.columns, j))
  {
    var k := FirstRepeated(t.columns, 0);
    if k < |t.columns| then
      SortFailed(LabelNotUnique(t.columns[k]))
    else
      assert Distinct(t.columns) by {
        forall i, j | 0 <= i < j < |t.columns| ensures t.columns[i] != t.columns[j] {
          assert !Repeated(t.columns, i);
        }
      }
      SortedTable(Table(t.columns, SortRows(t.rows)))
  }

  /**
   * The grade: whether the two queries are taken as equivalent, the queries
   * that were run, in order, and the failure shown to the learner, if any.
   */
  datatype Verdict = Verdict(equivalent: bool, executed: seq<string>, reported: Option<Failure>)

  /**
   * `validate_sql_query`: a blank query on either side fails the grade
   * before anything runs; a failure while running or sorting is shown and
   * fails the grade; otherwise the two result tables are compared as they
   * are (`ordered`) or after each is sorted by its own column list.
   */
  function ValidateSqlQuery(engine: Engine, userQuery: string, expectedQuery: string, ordered: bool := true): (v: Verdict)
    ensures IsBlank(userQuery) || IsBlank(expectedQuery) ==> v == Verdict(false, [], None)
    ensures v.reported.Some? ==> !v.equivalent
    ensures v.equivalent ==> v.executed == [userQuery, expectedQuery]
  {
    StripEmptyIffBlank(userQuery);
    StripEmptyIffBlank(expectedQuery);
    if Strip(userQuery) == [] || Strip(expectedQuery) == [] then
      Verdict(false, [], None)
    else
      if !engine(userQuery).Rows? then Verdict(false, [userQuery], Some(Caught(engine(userQuery))))
      else
        var both := [userQuery, expectedQuery];
        if !engine(expectedQuery).Rows? then Verdict(false, both, Some(Caught(engine(expectedQuery))))
        else
          var userTable, expectedTable := engine(userQuery).table, engine(expectedQuery).table;
          if ordered then
            Verdict(userTable == expectedTable, both, None)
          else
            match SortByOwnColumns(userTable)
            case SortFailed(f) => Verdict(false, both, Some(f))
            case SortedTable(userSorted) =>
              match SortByOwnColumns(expectedTable)
              case SortFailed(f) => Verdict(false, both, Some(f))
              case SortedTable(expectedSorted) => Verdict(userSorted == expectedSorted, both, None)
  }

  /** Both queries have text other than white space. */
  predicate BothGiven(userQuery: string, expectedQuery: string) {
    !IsBlank(userQuery) && !IsBlank(expectedQuery)
  }

  /**
   * If either query fails in the engine or returns no result set, the grade
   * is "not equivalent", the failure of the first such query is shown (the
   * engine's message, or the missing column description), and a failure of
   * the learner's query stops the reference query from running.
   */
  lemma ValidateFailureIsNotEquivalent(engine: Engine, userQuery: string, expectedQuery: string, ordered: bool)
    requires BothGiven(userQuery, expectedQuery)
    requires !engine(userQuery).Rows? || !engine(expectedQuery).Rows?
    ensures var v := ValidateSqlQuery(engine, userQuery, expectedQuery, ordered);
            var first := if !engine(userQuery).Rows? then engine(userQuery) else engine(expectedQuery);
            && !v.equivalent
            && v.reported == Some(if first.EngineError? then QueryFailed(first.message) else MissingDescription)
            && v.executed == if !engine(userQuery).Rows? then [userQuery] else [userQuery, expectedQuery]
  {
    StripEmptyIffBlank(userQuery);
    StripEmptyIffBlank(expectedQuery);
  }

  /**
   * Ordered grading: once both queries have run, the grade is exactly
   * equality of the two result tables, labels and rows in order.
   */
  lemma ValidateOrdered(engine: Engine, userQuery: string, expectedQuery: string)
    requires BothGiven(userQuery, expectedQuery)
    requires engine(userQuery).Rows? && engine(expectedQuery).Rows?
    ensures var v := ValidateSqlQuery(engine, userQuery, expectedQuery, true);
            (v.equivalent <==> engine(userQuery).table == engine(expectedQuery).table)
            && v.reported == None
  {
    StripEmptyIffBlank(userQuery);
    StripEmptyIffBlank(expectedQuery);
  }

  /**
   * Two tables hold the same rows up to order: the same labels, in the same
   * order and none twice, and each row occurring equally often in both.
   */
  ghost predicate SameRowsAnyOrder(a: Table, b: Table) {
    Distinct(a.columns) && a.columns == b.columns && multiset(a.rows) == multiset(b.rows)
  }

  /**
   * Unordered grading: once both queries have run, the grade is "equivalent"
   * exactly when the tables hold the same rows up to order. Each side is
   * sorted by its own labels, but since the sorted tables must then agree on
   * their labels, this never separates tables that `SameRowsAnyOrder` joins.
   * A failure is shown exactly when one side has a repeated label; the
   * learner's table is sorted first, so its first repeated label is the one
   * shown whenever it has one.
   */
  lemma ValidateUnordered(engine: Engine, userQuery: string, expectedQuery: string)
    requires BothGiven(userQuery, expectedQuery)
    requires engine(userQuery).Rows? && engine(expectedQuery).Rows?
    ensures var v := ValidateSqlQuery(engine, userQuery, expectedQuery, false);
            var a, b := engine(userQuery).table, engine(expectedQuery).table;
            (v.equivalent <==> SameRowsAnyOrder(a, b))
            && (v.reported.Some? <==> !Distinct(a.columns) || !Distinct(b.columns))
            && v.reported == if !Distinct(a.columns) then Some(SortByOwnColumns(a).failure)
                             else if !Distinct(b.columns) then Some(SortByOwnColumns(b).failure)
                             else None
  {
    StripEmptyIffBlank(userQuery);
    StripEmptyIffBlank(expectedQuery);
    var a, b := engine(userQuery).table, engine(expectedQuery).table;
    if Distinct(a.columns) && Distinct(b.columns) {
      var sa, sb := SortByOwnColumns(a).table, SortByOwnColumns(b).table;
      if multiset(a.rows) == multiset(b.rows) {
        SortedUnique(sa.rows, sb.rows);
      }
    }
  }

  /**
   * A query whose labels are all different is graded "equivalent" to any
   * query returning a rearrangement of its rows, when order is ignored.
   */
  lemma ValidateUnorderedAcceptsPermutation(engine: Engine, userQuery: string, expectedQuery: string)
    requires BothGiven(userQuery, expectedQuery)
    requires engine(userQuery).Rows? && engine(expectedQuery).Rows?
    requires engine(userQuery).table.columns == engine(expectedQuery).table.columns
    requires Distinct(engine(userQuery).table.columns)
    requires multiset(engine(userQuery).table.rows) == multiset(engine(expectedQuery).table.rows)
    ensures ValidateSqlQuery(engine, userQuery, expectedQuery, false).equivalent
  {
    ValidateUnordered(engine, userQuery, expectedQuery);
  }

  /**
   * Ignoring order accepts at least what the ordered grade accepts, unless
   * a label is repeated, which makes the unordered grade fail to sort.
   */
  lemma OrderedImpliesUnordered(engine: Engine, userQuery: string, expectedQuery: string)
    requires ValidateSqlQuery(engine, userQuery, expectedQuery, true).equivalent
    ensures ValidateSqlQuery(engine, userQuery, expectedQuery, false).equivalent
            <==> Distinct(engine(userQuery).table.columns)
  {
    StripEmptyIffBlank(userQuery);
    StripEmptyIffBlank(expectedQuery);
    ValidateUnordered(engine, userQuery, expectedQuery);
  }

  /**
   * A query graded against itself: equivalent when order counts, and when
   * order is ignored exactly if its labels are all different.
   */
  lemma ValidateSameQuery(engine: Engine, query: string)
    requires !IsBlank(query) && engine(query).Rows?
    ensures ValidateSqlQuery(engine, query, query, true).equivalent
    ensures ValidateSqlQuery(engine, query, query, false).equivalent <==> Distinct(engine(query).table.columns)
  {
    ValidateOrdered(engine, query, query);
    ValidateUnordered(engine, query, query);
  }

  const DescQuery: string := "SELECT name, age FROM users ORDER BY age DESC"
  const AscQuery: string := "SELECT name, age FROM users ORDER BY age ASC"

  /** The `users` table of the lesson, as the two queries return it. */
  predicate UsersEngine(engine: Engine) {
    && engine(DescQuery) == Rows(Table(["name", "age"], [[Text("Alice"), Int(30)], [Text("Bob"), Int(25)]]))
    && engine(AscQuery) == Rows(Table(["name", "age"], [[Text("Bob"), Int(25)], [Text("Alice"), Int(30)]]))
  }

  lemma UsersQueriesGiven()
    ensures BothGiven(DescQuery, AscQuery)
  {
    assert DescQuery[44] == 'C' && AscQuery[43] == 'C';
    assert !IsSpace(DescQuery[44]) && !IsSpace(AscQuery[43]);
  }

  /**
   * The example of a learner sorting descending where the reference sorts
   * ascending: equivalent when order is ignored.
   */
  lemma UsersUnorderedExample(engine: Engine)
    requires UsersEngine(engine)
    ensures ValidateSqlQuery(engine, DescQuery, AscQuery, false).equivalent
  {
    UsersQueriesGiven();
    var alice: Row, bob: Row := [Text("Alice"), Int(30)], [Text("Bob"), Int(25)];
    var byAgeDesc: seq<Row>, byAgeAsc: seq<Row> := [alice, bob], [bob, alice];
    assert Distinct(["name", "age"]);
    assert multiset(byAgeDesc) == multiset(byAgeAsc);
    ValidateUnordered(engine, DescQuery, AscQuery);
  }

  /** The same example is not equivalent when order counts. */
  lemma UsersOrderedExample(engine: Engine)
    requires UsersEngine(engine)
    ensures !ValidateSqlQuery(engine, DescQuery, AscQuery, true).equivalent
  {
    UsersQueriesGiven();
    var alice: Row, bob: Row := [Text("Alice"), Int(30)], [Text("Bob"), Int(25)];
    var byAgeDesc: seq<Row>, byAgeAsc: seq<Row> := [alice, bob], [bob, alice];
    assert byAgeDesc[0] != byAgeAsc[0];
    ValidateOrdered(engine, DescQuery, AscQuery);
  }

  /**
   * What the page shows after "Run Query". `Uncaught` is a statement without
   * a result set: reading its column description raises an error that the
   * page does not catch, so the page stops with that error instead.
   */
  datatype Shown = EmptyQueryWarning | ErrorBanner(message: string) | ResultTable(table: Table) | Uncaught

  datatype Display = Display(shown: Shown, executed: seq<string>)

  /**
   * `display_sql_results`: a blank query only warns and runs nothing; an
   * engine failure is shown with its message; a statement without a result
   * set escapes the page's error handler; a result is shown with its column
   * labels de-duplicated and its rows as they came.
   */
  method DisplaySqlResults(engine: Engine, sql: string) returns (d: Display)
    ensures IsBlank(sql) <==> d.shown.EmptyQueryWarning?
    ensures d.executed == if IsBlank(sql) then [] else [sql]
    ensures !IsBlank(sql) && engine(sql).EngineError? ==>
              d.shown == ErrorBanner("An error occurred: " + engine(sql).message)
    ensures !IsBlank(sql) && engine(sql).NoResultSet? ==> d.shown == Uncaught
    ensures !IsBlank(sql) && engine(sql).Rows? ==>
              d.shown.ResultTable?
              && d.shown.table.columns == Uniquify(engine(sql).table.columns)
              && d.shown.table.rows == engine(sql).table.rows
              && Distinct(d.shown.table.columns)
  {
    StripEmptyIffBlank(sql);
    if Strip(sql) == [] {
      return Display(EmptyQueryWarning, []);
    }
    match engine(sql)
    case EngineError(m) =>
      d := Display(ErrorBanner("An error occurred: " + m), [sql]);
    case NoResultSet =>
      d := Display(Uncaught, [sql]);
    case Rows(t) =>
      var df := new DataFrame(t);
      var _ := DfColumnUniquify(df);
      UniquifyDistinct(t.columns);
      d := Display(ResultTable(Table(df.columns, df.rows)), [sql]);
  }
}
