# SQL tutorial page: column de-duplication and query grading

This project models the two pieces of logic of a Streamlit SQL tutorial page
(`main.py`) and proves properties of them in Dafny.

- **Column-label de-duplication** (`df_column_uniquify`). The labels of a query
  result are taken in order. A label not yet emitted is kept. A repeated label
  becomes the first of `label_1`, `label_2`, … that has not been emitted yet.
  The model has three layers:
  - a functional description, `ColumnUniquify.Uniquify`;
  - a declarative one, `IsUniquification`: each output name is the first
    untaken attempt;
  - the source's nested loops, as the method `ColumnUniquify.UniquifyColumns`,
    proved equal to `Uniquify`.

  `DfColumnUniquify` then writes the labels back into a `Tables.DataFrame`
  object in place. The inner loop's termination argument is the
  source's own: the attempts `label`, `label_1`, … are pairwise different and
  all taken, so the counter never exceeds the number of names emitted.
- **Query grading** (`validate_sql_query`) and the blank-query guard of
  `display_sql_results`. The relational engine is a parameter
  `Engine = string -> ExecResult`. It returns a result table, "no result
  set" for a statement such as an `INSERT`, or the engine's error message.
  The engine is taken to be deterministic and read-only. A table is a list of column labels and a sequence of rows of
  cells. The validator:
  - rejects a blank query (Python `str.strip()` leaves nothing) before
    running anything;
  - turns every failure into "not equivalent";
  - compares the two tables as they are when `ordered` is true (the
    default);
  - otherwise first sorts each table by its own column list.

  Sorting is specified as "ascending and a rearrangement of the input", and
  such an arrangement is unique. The main lemma, `ValidateUnordered`, follows
  from that. It says the unordered grade holds exactly when the two tables
  have the same labels, no label twice, and the same rows counted with
  multiplicity.

Sorting each side by its own column list might seem able to call two tables
with the same rows different. It cannot: the frame comparison then demands
identical labels in identical order, and with identical labels the two sort
keys coincide. The model keeps the sort by each side's own labels and proves
this (`ValidateUnordered`). One behaviour follows the code rather than any
written description. A data frame refuses to sort by a label that names two
columns, and the validator's `except Exception` catches that refusal. An
unordered grade of a result with a repeated label is therefore always
"not equivalent", even for a query graded against itself
(`ValidateSameQuery`).

## Model

| member | source | states |
|---|---|---|
| `Decimal.NatToDecimal` | main.py:50 | the counter's text is non-empty, all digits, and starts with `0` only for zero |
| `Decimal.DecimalRoundTrip` | main.py:50 | reading the counter's decimal text back gives the counter |
| `Decimal.NatToDecimalInjective` | main.py:50 | different counters give different suffix texts |
| `ColumnUniquify.Candidate` | main.py:47-50 | attempt 0 is the label itself; a later attempt is strictly longer and starts with the label |
| `ColumnUniquify.CandidateInjective` | main.py:48-50 | the attempts `item`, `item_1`, `item_2`, … are pairwise different |
| `ColumnUniquify.CandidatesBound` | main.py:48-50 | if the first `k` attempts are all taken, at least `k` names were emitted, which bounds the inner loop |
| `ColumnUniquify.FreshIndex` | main.py:46-50 | the chosen counter is the smallest whose attempt is untaken, and is at most the number of names emitted |
| `ColumnUniquify.Uniquify` | main.py:42-53 | one output name per input label |
| `ColumnUniquify.UniquifyMeetsSpec` | main.py:44-52 | in input order, each output name is the label or `label_k` for the least untaken `k`, with `k` at most the number of earlier names |
| `ColumnUniquify.SpecDeterminesOutput` | main.py:44-52 | any sequence meeting that description is the output, so the description and the function agree both ways |
| `ColumnUniquify.UniquifyDistinct` | main.py:48-51 | the output names are pairwise distinct |
| `ColumnUniquify.KeptWhenUnused` | main.py:47-48 | a label not among the earlier output names is kept unchanged |
| `ColumnUniquify.DistinctUnchanged` | main.py:47-48 | labels that are already pairwise distinct come back unchanged |
| `ColumnUniquify.UniquifyIdempotent` | main.py:42-53 | de-duplicating twice equals de-duplicating once |
| `ColumnUniquify.WorkedExample` | main.py:42-53 | `a, a, b, a` becomes `a, a_1, b, a_2` |
| `ColumnUniquify.UniquifyColumns` | main.py:43-51 | the nested loops produce exactly `Uniquify(columns)`; the inner loop keeps `counter <= len(new_columns)` |
| `ColumnUniquify.DfColumnUniquify` | main.py:42-53 | the frame's labels become their de-duplicated version, its rows are untouched, and the same frame is returned |
| `Tables.CellLeTotalOrder` | main.py:117-118 | the order on cell values used for sorting is a total order |
| `Tables.RowLeTotalOrder` | main.py:117-118 | sorting by every column in column order compares rows by a total order |
| `RowSort.SortRows` | main.py:117-118 | sorted rows are ascending and a rearrangement of the input rows |
| `RowSort.SortedUnique` | main.py:117-118 | two ascending arrangements of the same rows are equal |
| `RowSort.SortRowsSameIffPermutation` | main.py:117-119 | two row sequences sort to the same result exactly when one rearranges the other |
| `RowSort.SortRowsOfSorted` | main.py:117-118 | sorting rows already in ascending order changes nothing |
| `Whitespace.Strip` | main.py:108 | `strip()` removes only leading and trailing white space: everything before the result and after it is white space, and the result neither starts nor ends with white space |
| `Whitespace.StripEmptyIffBlank` | main.py:108 | stripping leaves nothing exactly when every character is white space |
| `QueryValidation.FirstRepeated` | main.py:117 | sorting by the labels in order stops at the first label that names more than one column |
| `QueryValidation.SortByOwnColumns` | main.py:117-118 | sorting by the table's own labels succeeds exactly when no label is repeated; it keeps the labels and sorts and rearranges the rows; on failure it names the first label, in column order, that is repeated |
| `QueryValidation.ValidateSqlQuery` | main.py:104-122 | a blank query on either side gives "not equivalent" with nothing executed; a reported failure means "not equivalent"; "equivalent" means both queries ran, in order |
| `QueryValidation.ValidateFailureIsNotEquivalent` | main.py:110-122 | an engine error or a statement without a result set on either query gives "not equivalent" and reports the first such failure (the engine's message, or the missing column description); the second query does not run when the first one fails |
| `QueryValidation.ValidateOrdered` | main.py:114-115 | with `ordered`, the grade is exactly equality of the two result tables, and nothing is reported |
| `QueryValidation.ValidateUnordered` | main.py:116-119 | without `ordered`, the grade holds iff both tables have the same labels, none repeated, and the same rows with multiplicity; a failure is reported iff a side repeats a label, and it names the learner's first repeated label whenever the learner's table has one, else the reference's |
| `QueryValidation.ValidateUnorderedAcceptsPermutation` | main.py:116-119 | a result graded against any rearrangement of its rows is "equivalent" when order is ignored and its labels are distinct |
| `QueryValidation.OrderedImpliesUnordered` | main.py:114-119 | when the ordered grade holds, the unordered grade holds exactly when the labels are distinct |
| `QueryValidation.ValidateSameQuery` | main.py:104-119 | a query graded against itself is equivalent when order counts, and when order is ignored iff its labels are distinct |
| `QueryValidation.UsersUnorderedExample` | main.py:60-61 | the `users` rows (Alice 30, Bob 25) sorted descending and ascending grade as equivalent when order is ignored |
| `QueryValidation.UsersOrderedExample` | main.py:60-61 | the same two results grade as not equivalent when order counts |
| `QueryValidation.DisplaySqlResults` | main.py:66-81 | a blank query only warns and runs nothing; an engine error shows `An error occurred: ` and its message; a statement without a result set ends in an error the page does not catch; a result is shown with de-duplicated, distinct labels and unchanged rows |

## Left out

- Page rendering, the lesson registry and navigation (`SQLPage`, `ALL_TASKS`, `main_page`, the lesson pages, main.py:6-19, 125-186). They are user-interface code.
- The code-editor widget and the session-state bridge (`display_editor`, main.py:22-38). They are a foreign widget and framework caching.
- Creating the in-memory database, seeding the `users` table, loading the CSV files and `to_sql` (main.py:56-63, 84-101). The engine is the `Engine` parameter. The `users` rows appear only as the premise of the two example lemmas.
- Executing SQL (main.py:72-75, 111-112). It is the `Engine` parameter, which assumes the engine is deterministic and read-only: running the same text twice gives the same outcome. Statements that change the store (a `DELETE ... RETURNING`, whose second run sees the emptied table) and queries using `random()` or the clock are outside the model.
- `QueryValidation.ValidateSameQuery`: relies on that assumption; for `SELECT random()` the source grades the query against itself as not equivalent.
- `QueryValidation.OrderedImpliesUnordered`: relies on that assumption, since it relates two separate validations that each run both queries.
- `QueryValidation.DisplaySqlResults`: the error that escapes the page for a statement without a result set is an outcome (`Uncaught`), not an exception; that the lesson page then skips its grading call (main.py:170-171) is page code and is not modelled.
- `QueryValidation.ValidateSqlQuery`: reports the caught failure as a value; the banner text `Error executing queries: …` is not modelled. Of the page's texts, only the `An error occurred: ` prefix of `display_sql_results` appears; its warning and success texts are represented by the `EmptyQueryWarning` and `ResultTable` outcomes.
- Cell values are integers, texts and NULL. Floating-point and binary values are left out. So are pandas' dtype-sensitive `equals`, its handling of missing values beyond "NULL sorts last", and the `TypeError` it raises when one column mixes numbers and text. The cell order is taken to be a total order. The grade does not depend on which total order it is, because sorted and rearranged determines the result.
- Rows are not required to have one cell per column. With well-formed rows, sorting by every column in order is exactly the row order used here.
- The row index that `reset_index(drop=True)` rebuilds is implicit in the position of each row.
- The `st.error`, `st.warning` and `st.success` calls are represented by the returned `Verdict` and `Display` values.
- Non-string column labels, which pandas allows and `str.format` would render as text. Query results always have string labels.
