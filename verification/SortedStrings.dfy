/**
 String sets and the sorted listing that the reconcilers iterate over when they append rules.
 Strings are ordered by code point, which is the order of their UTF-8 bytes.
 */
module SortedStrings {

  predicate Leq(a: string, b: string) {
    a == [] || (b != [] && (a[0] < b[0] || (a[0] == b[0] && Leq(a[1..], b[1..]))))
  }

  lemma {:induction false} LeqTotal(a: string, b: string)
    ensures Leq(a, b) || Leq(b, a)
  {
    if a != [] && b != [] { LeqTotal(a[1..], b[1..]); }
  }

  lemma {:induction false} LeqAntisymmetric(a: string, b: string)
    requires Leq(a, b) && Leq(b, a)
    ensures a == b
  {
    if a != [] && b != [] {
      LeqAntisymmetric(a[1..], b[1..]);
      assert a == [a[0]] + a[1..] && b == [b[0]] + b[1..];
    }
  }

  lemma {:induction false} LeqTransitive(a: string, b: string, c: string)
    requires Leq(a, b) && Leq(b, c)
    ensures Leq(a, c)
  {
    if a != [] && b != [] && c != [] && a[0] == b[0] == c[0] { LeqTransitive(a[1..], b[1..], c[1..]); }
  }

  predicate IsMinimum(m: string, s: set<string>) {
    m in s && forall x | x in s :: Leq(m, x)
  }

  lemma {:induction false} MinimumExists(s: set<string>)
    requires s != {}
    ensures exists m :: IsMinimum(m, s)
  {
    var x :| x in s;
    if s == {x} {
      LeqTotal(x, x);
      assert IsMinimum(x, s);
    } else {
      MinimumExists(s - {x});
      var m :| IsMinimum(m, s - {x});
      LeqTotal(x, m);
      LeqTotal(x, x);
      forall y | y in s && Leq(x, m) ensures Leq(x, y) {
        if y != x { LeqTransitive(x, m, y); }
      }
      assert IsMinimum(x, s) || IsMinimum(m, s);
    }
  }

  function Minimum(s: set<string>): (m: string)
    requires s != {}
    ensures IsMinimum(m, s)
  {
    MinimumExists(s);
    assert forall a, b | IsMinimum(a, s) && IsMinimum(b, s) :: a == b by {
      forall a, b | IsMinimum(a, s) && IsMinimum(b, s) ensures a == b { LeqAntisymmetric(a, b); }
    }
    var m :| m in s && IsMinimum(m, s);
    m
  }

  ghost predicate StrictlySorted(l: seq<string>) {
    forall i, j | 0 <= i < j < |l| :: Leq(l[i], l[j]) && l[i] != l[j]
  }

  /** The members of a set, once each, in increasing order. */
  function SortedList(s: set<string>): (l: seq<string>)
    ensures forall x :: x in l <==> x in s
    ensures |l| == |s|
    ensures StrictlySorted(l)
  {
    if s == {} then []
    else
      var m := Minimum(s);
      [m] + SortedList(s - {m})
  }
}
