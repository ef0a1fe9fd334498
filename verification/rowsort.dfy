/**
 * Sorting the rows of a table ascending with every column as a sort key, in
 * column order. The result is specified by what it is (ordered, and a
 * rearrangement of the input), which determines it uniquely; the insertion
 * sort below is one way of computing it.
 */
module RowSort {
  import opened Lexicographic
  import opened Tables

  ghost predicate Sorted(rows: seq<Row>) {
    forall i, j :: 0 <= i < j < |rows| ==> RowLe(rows[i], rows[j])
  }

  function Insert(r: Row, rows: seq<Row>): (out: seq<Row>)
    requires Sorted(rows)
    ensures Sorted(out)
    ensures multiset(out) == multiset(rows) + multiset{r}
    decreases |rows|
  {
    RowLeTotalOrder();
    if rows == [] then [r]
    else if RowLe(r, rows[0]) then [r] + rows
    else
      assert rows == [rows[0]] + rows[1..];
      var rest := Insert(r, rows[1..]);
      LeastBelowAll(rows[0], r, rows[1..], rest);
      [rows[0]] + rest
  }

  /** A row ordered before `r` and before all of `rows` is ordered before any rearrangement of them. */
  lemma LeastBelowAll(least: Row, r: Row, rows: seq<Row>, out: seq<Row>)
    requires RowLe(least, r) && forall i :: 0 <= i < |rows| ==> RowLe(least, rows[i])
    requires multiset(out) == multiset(rows) + multiset{r}
    ensures forall i :: 0 <= i < |out| ==> RowLe(least, out[i])
  {
    forall i | 0 <= i < |out| ensures RowLe(least, out[i]) {
      assert out[i] in multiset(out);
      if out[i] != r {
        assert out[i] in multiset(rows);
      }
    }
  }

  /** The rows in ascending order. */
  function SortRows(rows: seq<Row>): (out: seq<Row>)
    ensures Sorted(out)
    ensures multiset(out) == multiset(rows)
    decreases |rows|
  {
    if rows == [] then []
    else
      assert rows == [rows[0]] + rows[1..];
      Insert(rows[0], SortRows(rows[1..]))
  }

  /** Of two ascending arrangements of the same rows, the first rows agree. */
  lemma SameFirst(a: seq<Row>, b: seq<Row>)
    requires Sorted(a) && Sorted(b) && multiset(a) == multiset(b) && a != []
    ensures b != [] && a[0] == b[0]
  {
    RowLeTotalOrder();
    assert a[0] in multiset(b);
    var i :| 0 <= i < |b| && b[i] == a[0];
    assert b[0] in multiset(a);
    var j :| 0 <= j < |a| && a[j] == b[0];
    assert RowLe(b[0], a[0]) by {
      if i > 0 {
        assert RowLe(b[0], b[i]);
      }
    }
    assert RowLe(a[0], b[0]) by {
      if j > 0 {
        assert RowLe(a[0], a[j]);
      }
    }
  }

  /** Taking the same row off the front of two rearrangements leaves rearrangements. */
  lemma SameRest(a: seq<Row>, b: seq<Row>)
    requires a != [] && b != [] && a[0] == b[0] && multiset(a) == multiset(b)
    ensures multiset(a[1..]) == multiset(b[1..])
  {
    assert a == [a[0]] + a[1..];
    assert b == [b[0]] + b[1..];
    forall r ensures multiset(a[1..])[r] == multiset(b[1..])[r] {
      assert multiset(a)[r] == multiset{a[0]}[r] + multiset(a[1..])[r];
      assert multiset(b)[r] == multiset{a[0]}[r] + multiset(b[1..])[r];
    }
  }

  /**
   * Two ascending arrangements of the same rows are the same sequence: the
   * order is total and antisymmetric, so there is nothing left to choose.
   */
  lemma {:induction false} SortedUnique(a: seq<Row>, b: seq<Row>)
    requires Sorted(a) && Sorted(b) && multiset(a) == multiset(b)
    ensures a == b
    decreases |a|
  {
    if a == [] {
      assert |b| == |multiset(b)| == 0;
    } else {
      SameFirst(a, b);
      SameRest(a, b);
      SortedUnique(a[1..], b[1..]);
      assert a == [a[0]] + a[1..] && b == [b[0]] + b[1..];
    }
  }

  /**
   * Sorting two row sequences gives the same result exactly when one is a
   * rearrangement of the other.
   */
  lemma SortRowsSameIffPermutation(a: seq<Row>, b: seq<Row>)
    ensures SortRows(a) == SortRows(b) <==> multiset(a) == multiset(b)
  {
    if multiset(a) == multiset(b) {
      SortedUnique(SortRows(a), SortRows(b));
    }
  }

  /** Sorting rows that are already in ascending order changes nothing. */
  lemma SortRowsOfSorted(rows: seq<Row>)
    requires Sorted(rows)
    ensures SortRows(rows) == rows
  {
    SortedUnique(SortRows(rows), rows);
  }
}
