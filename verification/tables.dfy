/**
 * Result tables: what a query returns (column names and rows of cell values),
 * the order in which cells and rows are sorted, and the data frame object
 * whose column labels the tutorial page rewrites in place.
 */
module Tables {
  import opened Lexicographic

  /**
   * A cell value as a query returns it: an integer, a text, or NULL.
   * Floating-point and binary values are not part of this model.
   */
  datatype Cell = Int(i: int) | Text(s: string) | Null

  /** A result row: one cell per column, in column order. */
  type Row = seq<Cell>

  /** A query result: its column names in order and its rows in order. */
  datatype Table = Table(columns: seq<string>, rows: seq<Row>)

  /** No value occurs twice in `s`. */
  predicate Distinct<T(==)>(s: seq<T>) {
    forall i, j :: 0 <= i < j < |s| ==> s[i] != s[j]
  }

  function CharLe(x: char, y: char): bool {
    x <= y
  }

  /**
   * The ascending order on cells: integers numerically, texts by code point,
   * integers before texts, and NULL last (ascending sorts put missing values
   * at the end).
   */
  function CellLe(a: Cell, b: Cell): bool {
    match (a, b)
    case (Int(x), Int(y)) => x <= y
    case (Int(_), Text(_)) => true
    case (Text(_), Int(_)) => false
    case (Text(x), Text(y)) => LexLe(CharLe, x, y)
    case (_, Null) => true
    case (Null, _) => false
  }

  /** The order in which rows are sorted when every column is a sort key. */
  function RowLe(a: Row, b: Row): bool {
    LexLe(CellLe, a, b)
  }

  lemma CharLeTotalOrder()
    ensures TotalOrder(CharLe)
  {
  }

  /** The cell order is a total order. */
  lemma CellLeTotalOrder()
    ensures TotalOrder(CellLe)
  {
    CharLeTotalOrder();
    forall a: Cell ensures CellLe(a, a) {
      if a.Text? {
        LexReflexive(CharLe, a.s);
      }
    }
    forall a: Cell, b: Cell | CellLe(a, b) && CellLe(b, a) ensures a == b {
      if a.Text? && b.Text? {
        LexAntiSymmetric(CharLe, a.s, b.s);
      }
    }
    forall a: Cell, b: Cell, c: Cell | CellLe(a, b) && CellLe(b, c) ensures CellLe(a, c) {
      if a.Text? && b.Text? && c.Text? {
        LexTransitive(CharLe, a.s, b.s, c.s);
      }
    }
    forall a: Cell, b: Cell ensures CellLe(a, b) || CellLe(b, a) {
      if a.Text? && b.Text? {
        LexTotal(CharLe, a.s, b.s);
      }
    }
  }

  /** The row order is a total order. */
  lemma RowLeTotalOrder()
    ensures TotalOrder(RowLe)
  {
    CellLeTotalOrder();
    forall a: Row ensures RowLe(a, a) {
      LexReflexive(CellLe, a);
    }
    forall a: Row, b: Row | RowLe(a, b) && RowLe(b, a) ensures a == b {
      LexAntiSymmetric(CellLe, a, b);
    }
    forall a: Row, b: Row, c: Row | RowLe(a, b) && RowLe(b, c) ensures RowLe(a, c) {
      LexTransitive(CellLe, a, b, c);
    }
    forall a: Row, b: Row ensures RowLe(a, b) || RowLe(b, a) {
      LexTotal(CellLe, a, b);
    }
  }

  /**
   * A data frame: a table held in an object whose column labels can be
   * reassigned in place.
   */
  class DataFrame {
    var columns: seq<string>
    var rows: seq<Row>

    constructor (t: Table)
      ensures columns == t.columns && rows == t.rows
    {
      columns := t.columns;
      rows := t.rows;
    }
  }
}
