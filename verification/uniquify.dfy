/**
 * De-duplication of column labels (`df_column_uniquify`). The labels are
 * taken in order; a label not yet emitted is kept, and a repeated one is
 * renamed to the first of `label_1`, `label_2`, ... that has not been
 * emitted yet.
 */
module ColumnUniquify {
  import opened Decimal
  import opened Tables

  /**
   * The `k`-th name tried for `item`: the label itself for `k == 0`, and
   * `item` followed by an underscore and the decimal text of `k` otherwise.
   */
  function Candidate(item: string, k: nat): (name: string)
    ensures k == 0 ==> name == item
    ensures k > 0 ==> |name| > |item| && name[..|item|] == item
  {
    if k == 0 then item else item + "_" + NatToDecimal(k)
  }

  /** Different attempts give different names. */
  lemma CandidateInjective(item: string, j: nat, k: nat)
    ensures Candidate(item, j) == Candidate(item, k) ==> j == k
  {
    if j > 0 && k > 0 && Candidate(item, j) == Candidate(item, k) {
      assert NatToDecimal(j) == Candidate(item, j)[|item| + 1..];
      assert NatToDecimal(k) == Candidate(item, k)[|item| + 1..];
      NatToDecimalInjective(j, k);
    }
  }

  ghost function CandidateSet(item: string, k: nat): set<string> {
    set j: nat | j < k :: Candidate(item, j)
  }

  lemma {:induction false} CandidateSetSize(item: string, k: nat)
    ensures |CandidateSet(item, k)| == k
  {
    if k == 0 {
      assert CandidateSet(item, 0) == {};
    } else {
      var smaller, last := CandidateSet(item, k - 1), Candidate(item, k - 1);
      CandidateSetSize(item, k - 1);
      forall x | x in smaller ensures x != last {
        var j: nat :| j < k - 1 && x == Candidate(item, j);
        CandidateInjective(item, j, k - 1);
      }
      assert CandidateSet(item, k) == smaller + {last};
    }
  }

  lemma {:induction false} ElementsBound(s: seq<string>)
    ensures |set x | x in s| <= |s|
  {
    if s != [] {
      var m := |s| - 1;
      ElementsBound(s[..m]);
      assert (set x | x in s) == (set x | x in s[..m]) + {s[m]};
    }
  }

  lemma SubsetSize(a: set<string>, b: set<string>)
    requires a <= b
    ensures |a| <= |b|
  {
    assert b == a + (b - a);
  }

  /**
   * If the first `k` attempts for `item` are all taken, at least `k` names
   * are taken: the attempts are pairwise different.
   */
  lemma CandidatesBound(item: string, k: nat, used: seq<string>)
    requires forall j: nat :: j < k ==> Candidate(item, j) in used
    ensures k <= |used|
  {
    CandidateSetSize(item, k);
    ElementsBound(used);
    SubsetSize(CandidateSet(item, k), set x | x in used);
  }

  /** `k` is the first attempt for `item` that is not among `used`. */
  ghost predicate IsMinimalFresh(item: string, used: seq<string>, k: nat) {
    Candidate(item, k) !in used && forall j: nat :: j < k ==> Candidate(item, j) in used
  }

  /** The first attempt at `from` or later that is not among `used`. */
  function FreshIndex(item: string, used: seq<string>, from: nat): (k: nat)
    requires forall j: nat :: j < from ==> Candidate(item, j) in used
    ensures from <= k <= |used|
    ensures IsMinimalFresh(item, used, k)
    decreases |used| - from
  {
    CandidatesBound(item, from, used);
    if Candidate(item, from) !in used then from
    else
      CandidatesBound(item, from + 1, used);
      FreshIndex(item, used, from + 1)
  }

  /** The name `item` receives when the names `used` were emitted before it. */
  function Fresh(item: string, used: seq<string>): string {
    Candidate(item, FreshIndex(item, used, 0))
  }

  /** The de-duplicated labels, built from the left as the source loop does. */
  function Uniquify(columns: seq<string>): (r: seq<string>)
    ensures |r| == |columns|
    decreases |columns|
  {
    if columns == [] then []
    else
      var prev := Uniquify(columns[..|columns| - 1]);
      prev + [Fresh(columns[|columns| - 1], prev)]
  }

  /** `name` is the first untaken attempt for `item`, after at most `|used|` tries. */
  ghost predicate ChosenMinimally(item: string, used: seq<string>, name: string) {
    exists k: nat :: k <= |used| && name == Candidate(item, k) && IsMinimalFresh(item, used, k)
  }

  /**
   * The declarative description of the result: one name per label, in
   * order, each the first untaken attempt given the names before it.
   */
  ghost predicate IsUniquification(columns: seq<string>, out: seq<string>) {
    |out| == |columns| &&
    forall i :: 0 <= i < |columns| ==> ChosenMinimally(columns[i], out[..i], out[i])
  }

  lemma MinimalFreshUnique(item: string, used: seq<string>, j: nat, k: nat)
    requires IsMinimalFresh(item, used, j) && IsMinimalFresh(item, used, k)
    ensures j == k
  {
  }

  /** The names produced for a prefix of the labels do not depend on the rest. */
  lemma {:induction false} UniquifyPrefix(columns: seq<string>, n: nat)
    requires n <= |columns|
    ensures Uniquify(columns)[..n] == Uniquify(columns[..n])
    decreases |columns|
  {
    if n < |columns| {
      var m := |columns| - 1;
      UniquifyPrefix(columns[..m], n);
      assert columns[..m][..n] == columns[..n];
    } else {
      assert columns[..n] == columns;
    }
  }

  lemma UniquifyAt(columns: seq<string>, i: nat)
    requires i < |columns|
    ensures Uniquify(columns)[i] == Fresh(columns[i], Uniquify(columns)[..i])
  {
    UniquifyPrefix(columns, i + 1);
    UniquifyPrefix(columns, i);
    assert columns[..i + 1][..i] == columns[..i];
    assert Uniquify(columns)[..i + 1][..i] == Uniquify(columns)[..i];
  }

  /**
   * The result has one name per label, and each name is the label itself or
   * `label_k` for the smallest `k` not yet taken, with `k` at most the number
   * of names emitted before it.
   */
  lemma UniquifyMeetsSpec(columns: seq<string>)
    ensures IsUniquification(columns, Uniquify(columns))
  {
    var out := Uniquify(columns);
    forall i | 0 <= i < |columns| ensures ChosenMinimally(columns[i], out[..i], out[i]) {
      UniquifyAt(columns, i);
      var k := FreshIndex(columns[i], out[..i], 0);
      assert out[i] == Candidate(columns[i], k);
    }
  }

  /** A name chosen minimally is the one `Fresh` gives. */
  lemma ChosenIsFresh(item: string, used: seq<string>, name: string)
    requires ChosenMinimally(item, used, name)
    ensures name == Fresh(item, used)
  {
    var k: nat :| k <= |used| && name == Candidate(item, k) && IsMinimalFresh(item, used, k);
    MinimalFreshUnique(item, used, k, FreshIndex(item, used, 0));
  }

  lemma UniquifyLast(columns: seq<string>)
    requires columns != []
    ensures Uniquify(columns)
         == Uniquify(columns[..|columns| - 1]) + [Fresh(columns[|columns| - 1], Uniquify(columns[..|columns| - 1]))]
  {
  }

  lemma AppendFresh(columns: seq<string>, prev: seq<string>, name: string)
    requires columns != [] && prev == Uniquify(columns[..|columns| - 1])
    requires name == Fresh(columns[|columns| - 1], prev)
    ensures prev + [name] == Uniquify(columns)
  {
    UniquifyLast(columns);
  }

  /**
   * One round of the outer loop: appending the first untaken attempt for the
   * next label extends the result by one label.
   */
  lemma UniquifyStep(columns: seq<string>, idx: nat, prev: seq<string>, counter: nat)
    requires idx < |columns| && prev == Uniquify(columns[..idx])
    requires IsMinimalFresh(columns[idx], prev, counter)
    ensures prev + [Candidate(columns[idx], counter)] == Uniquify(columns[..idx + 1])
  {
    MinimalFreshUnique(columns[idx], prev, counter, FreshIndex(columns[idx], prev, 0));
    assert columns[..idx + 1][..idx] == columns[..idx];
    AppendFresh(columns[..idx + 1], prev, Candidate(columns[idx], counter));
  }

  lemma PrefixStep(columns: seq<string>, out: seq<string>, m: nat)
    requires m < |columns| && m < |out| && out[..m] == Uniquify(columns[..m])
    requires out[m] == Fresh(columns[m], out[..m])
    ensures out[..m + 1] == Uniquify(columns[..m + 1])
  {
    assert columns[..m + 1][..m] == columns[..m];
    AppendFresh(columns[..m + 1], out[..m], out[m]);
    assert out[..m + 1] == out[..m] + [out[m]];
  }

  lemma {:induction false} SpecPrefixes(columns: seq<string>, out: seq<string>, n: nat)
    requires IsUniquification(columns, out) && n <= |columns|
    ensures out[..n] == Uniquify(columns[..n])
    decreases n
  {
    if n > 0 {
      SpecPrefixes(columns, out, n - 1);
      assert ChosenMinimally(columns[n - 1], out[..n - 1], out[n - 1]);
      ChosenIsFresh(columns[n - 1], out[..n - 1], out[n - 1]);
      PrefixStep(columns, out, n - 1);
    }
  }

  /** The description determines the result: nothing else meets it. */
  lemma SpecDeterminesOutput(columns: seq<string>, out: seq<string>)
    requires IsUniquification(columns, out)
    ensures out == Uniquify(columns)
  {
    SpecPrefixes(columns, out, |columns|);
    assert out[..|columns|] == out && columns[..|columns|] == columns;
  }

  /** The result never holds the same name twice. */
  lemma UniquifyDistinct(columns: seq<string>)
    ensures Distinct(Uniquify(columns))
  {
    var out := Uniquify(columns);
    UniquifyMeetsSpec(columns);
    forall i, j | 0 <= i < j < |out| ensures out[i] != out[j] {
      assert ChosenMinimally(columns[j], out[..j], out[j]);
      assert out[i] in out[..j];
    }
  }

  /** A label that is not among the names emitted before it is kept unchanged. */
  lemma KeptWhenUnused(columns: seq<string>, i: nat)
    requires i < |columns| && columns[i] !in Uniquify(columns)[..i]
    ensures Uniquify(columns)[i] == columns[i]
  {
    UniquifyAt(columns, i);
  }

  /** Labels that are already pairwise different come back unchanged. */
  lemma {:induction false} DistinctUnchanged(columns: seq<string>)
    requires Distinct(columns)
    ensures Uniquify(columns) == columns
    decreases |columns|
  {
    if columns != [] {
      var m := |columns| - 1;
      DistinctUnchanged(columns[..m]);
      assert columns[m] !in columns[..m];
      assert columns == columns[..m] + [columns[m]];
    }
  }

  /** De-duplicating twice gives the same labels as de-duplicating once. */
  lemma UniquifyIdempotent(columns: seq<string>)
    ensures Uniquify(Uniquify(columns)) == Uniquify(columns)
  {
    UniquifyDistinct(columns);
    DistinctUnchanged(Uniquify(columns));
  }

  lemma ExampleSecondA()
    ensures Uniquify(["a", "a"]) == ["a", "a_1"]
  {
    assert ["a", "a"][..1] == ["a"];
    assert ["a"][..0] == [];
    UniquifyLast(["a"]);
    assert NatToDecimal(1) == "1";
    assert Candidate("a", 1) == "a_1" && "a_1" != "a";
    assert FreshIndex("a", ["a"], 0) == FreshIndex("a", ["a"], 1) == 1;
    UniquifyLast(["a", "a"]);
  }

  lemma ExampleB()
    ensures Uniquify(["a", "a", "b"]) == ["a", "a_1", "b"]
  {
    assert ["a", "a", "b"][..2] == ["a", "a"];
    ExampleSecondA();
    assert FreshIndex("b", ["a", "a_1"], 0) == 0;
    UniquifyLast(["a", "a", "b"]);
  }

  /** The worked example: `a, a, b, a` becomes `a, a_1, b, a_2`. */
  lemma WorkedExample()
    ensures Uniquify(["a", "a", "b", "a"]) == ["a", "a_1", "b", "a_2"]
  {
    var used := ["a", "a_1", "b"];
    assert ["a", "a", "b", "a"][..3] == ["a", "a", "b"];
    ExampleB();
    assert NatToDecimal(1) == "1";
    assert NatToDecimal(2) == "2";
    assert Candidate("a", 1) == "a_1";
    assert Candidate("a", 2) == "a_2" && "a_2"[2] != "a_1"[2] && "a_2" != "a" && "a_2" != "b";
    assert FreshIndex("a", used, 0) == FreshIndex("a", used, 1) == FreshIndex("a", used, 2) == 2;
    UniquifyLast(["a", "a", "b", "a"]);
  }

  /**
   * The source loop: for each label, try `label`, `label_1`, `label_2`, ...
   * until a name not yet emitted is found, and append it.
   */
  method UniquifyColumns(columns: seq<string>) returns (newColumns: seq<string>)
    ensures newColumns == Uniquify(columns)
  {
    newColumns := [];
    for idx := 0 to |columns|
      invariant newColumns == Uniquify(columns[..idx])
    {
      var item := columns[idx];
      var counter := 0;
      var newitem := item;
      while newitem in newColumns
        invariant counter <= |newColumns|
        invariant newitem == Candidate(item, counter)
        invariant forall j: nat :: j < counter ==> Candidate(item, j) in newColumns
        decreases |newColumns| - counter
      {
        CandidatesBound(item, counter + 1, newColumns);
        counter := counter + 1;
        newitem := item + "_" + NatToDecimal(counter);
      }
      UniquifyStep(columns, idx, newColumns, counter);
      newColumns := newColumns + [newitem];
    }
    assert columns[..|columns|] == columns;
  }

  /**
   * `df_column_uniquify`: replaces the frame's column labels by their
   * de-duplicated version, leaves its rows alone, and returns the same frame.
   */
  method DfColumnUniquify(df: DataFrame) returns (r: DataFrame)
    modifies df
    ensures r == df
    ensures df.columns == Uniquify(old(df.columns))
    ensures df.rows == old(df.rows)
  {
    var newColumns := UniquifyColumns(df.columns);
    df.columns := newColumns;
    r := df;
  }
}
