/** Option and the few facts about finite sets and sequences that several components share. */
module Util {

  datatype Option<+T> = None | Some(value: T)

  function Max(a: real, b: real): (m: real)
    ensures m >= a && m >= b && (m == a || m == b)
  {
    if a >= b then a else b
  }

  function Min(a: real, b: real): (m: real)
    ensures m <= a && m <= b && (m == a || m == b)
  {
    if a <= b then a else b
  }

  /** The position of the first `x`, or the length when there is none. */
  function Find<T(==)>(s: seq<T>, x: T): (i: nat)
    ensures i <= |s|
  {
    if s == [] || s[0] == x then 0 else 1 + Find(s[1..], x)
  }

  /** Some element of a non-empty set. */
  ghost function Pick<T>(s: set<T>): (x: T)
    requires s != {}
    ensures x in s
  {
    var x :| x in s;
    x
  }

  lemma NoElements<T>(s: set<T>)
    requires forall x :: x !in s
    ensures s == {}
  {
    assert s <= {};
  }

  /** A proper subset is smaller; a subset is no larger. */
  lemma SubsetSize<T>(a: set<T>, b: set<T>)
    requires a <= b
    ensures |a| <= |b|
    ensures a != b ==> |a| < |b|
  {
    assert b == a + (b - a);
    if a != b {
      var x :| x in b - a;
      assert |b - a| >= 1;
    }
  }
}
