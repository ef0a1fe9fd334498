/**
 * Total orders and the lexicographic extension of an element order to
 * sequences. Text is compared this way character by character, and a result
 * row is compared this way cell by cell when a table is sorted by its full
 * column list.
 */
module Lexicographic {

  ghost predicate Reflexive<T(!new)>(le: (T, T) -> bool) {
    forall x :: le(x, x)
  }

  ghost predicate AntiSymmetric<T(!new)>(le: (T, T) -> bool) {
    forall x, y :: le(x, y) && le(y, x) ==> x == y
  }

  ghost predicate Transitive<T(!new)>(le: (T, T) -> bool) {
    forall x, y, z :: le(x, y) && le(y, z) ==> le(x, z)
  }

  ghost predicate Total<T(!new)>(le: (T, T) -> bool) {
    forall x, y :: le(x, y) || le(y, x)
  }

  ghost predicate TotalOrder<T(!new)>(le: (T, T) -> bool) {
    Reflexive(le) && AntiSymmetric(le) && Transitive(le) && Total(le)
  }

  /**
   * `a` comes no later than `b`: at the first position where they differ the
   * element of `a` is ordered before the one of `b`, or `a` is a prefix of `b`.
   */
  function LexLe<T(==)>(le: (T, T) -> bool, a: seq<T>, b: seq<T>): bool
    decreases |a|
  {
    if a == [] then true
    else if b == [] then false
    else if a[0] == b[0] then LexLe(le, a[1..], b[1..])
    else le(a[0], b[0])
  }

  lemma {:induction false} LexReflexive<T>(le: (T, T) -> bool, a: seq<T>)
    ensures LexLe(le, a, a)
    decreases |a|
  {
    if a != [] {
      LexReflexive(le, a[1..]);
    }
  }

  lemma {:induction false} LexAntiSymmetric<T(!new)>(le: (T, T) -> bool, a: seq<T>, b: seq<T>)
    requires AntiSymmetric(le)
    requires LexLe(le, a, b) && LexLe(le, b, a)
    ensures a == b
    decreases |a|
  {
    if a != [] && b != [] && a[0] == b[0] {
      LexAntiSymmetric(le, a[1..], b[1..]);
      assert a == [a[0]] + a[1..];
      assert b == [b[0]] + b[1..];
    }
  }

  lemma {:induction false} LexTransitive<T(!new)>(le: (T, T) -> bool, a: seq<T>, b: seq<T>, c: seq<T>)
    requires AntiSymmetric(le) && Transitive(le)
    requires LexLe(le, a, b) && LexLe(le, b, c)
    ensures LexLe(le, a, c)
    decreases |a|
  {
    if a != [] && b != [] && c != [] {
      if a[0] == b[0] && b[0] == c[0] {
        LexTransitive(le, a[1..], b[1..], c[1..]);
      }
    }
  }

  lemma {:induction false} LexTotal<T(!new)>(le: (T, T) -> bool, a: seq<T>, b: seq<T>)
    requires Total(le)
    ensures LexLe(le, a, b) || LexLe(le, b, a)
    decreases |a|
  {
    if a != [] && b != [] && a[0] == b[0] {
      LexTotal(le, a[1..], b[1..]);
    }
  }
}
