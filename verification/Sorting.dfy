/** Listing the members of a set in order. */
module Sorting {

  ghost predicate TotalOrder<T(!new)>(le: (T, T) -> bool) {
    (forall x, y :: le(x, y) || le(y, x)) &&
    (forall x, y :: le(x, y) && le(y, x) ==> x == y) &&
    (forall x, y, z :: le(x, y) && le(y, z) ==> le(x, z))
  }

  lemma {:induction false} LeastExists<T(!new)>(s: set<T>, le: (T, T) -> bool) returns (least: T)
    requires TotalOrder(le) && s != {}
    ensures least in s && forall x :: x in s ==> le(least, x)
  {
    var some :| some in s;
    least := some;
    if s != {some} {
      var other := LeastExists(s - {some}, le);
      assert forall x :: x in s ==> x == some || x in s - {some};
      least := if le(some, other) then some else other;
    }
  }

  function Least<T(!new)>(s: set<T>, le: (T, T) -> bool): (least: T)
    requires TotalOrder(le) && s != {}
    ensures least in s && forall x :: x in s ==> le(least, x)
  {
    assert exists m :: m in s && forall x :: x in s ==> le(m, x) by {
      var m := LeastExists(s, le);
    }
    var m :| m in s && forall x :: x in s ==> le(m, x);
    m
  }

  /** Each member once, in order. */
  function Sorted<T(!new)>(s: set<T>, le: (T, T) -> bool): (r: seq<T>)
    requires TotalOrder(le)
    ensures forall x :: x in r <==> x in s
    ensures forall i, j :: 0 <= i < j < |r| ==> r[i] != r[j] && le(r[i], r[j])
  {
    if s == {} then []
    else
      var least := Least(s, le);
      [least] + Sorted(s - {least}, le)
  }

  // ----- code point order on strings

  predicate StringLe(a: string, b: string) {
    a == "" || (b != "" && (a[0] < b[0] || (a[0] == b[0] && StringLe(a[1..], b[1..]))))
  }

  lemma {:induction false} StringLeTotal(a: string, b: string)
    ensures StringLe(a, b) || StringLe(b, a)
  {
    if a != "" && b != "" { StringLeTotal(a[1..], b[1..]); }
  }

  lemma {:induction false} StringLeAntisymmetric(a: string, b: string)
    requires StringLe(a, b) && StringLe(b, a)
    ensures a == b
  {
    if a != "" {
      StringLeAntisymmetric(a[1..], b[1..]);
      assert a == [a[0]] + a[1..] && b == [b[0]] + b[1..];
    }
  }

  lemma {:induction false} StringLeTransitive(a: string, b: string, c: string)
    requires StringLe(a, b) && StringLe(b, c)
    ensures StringLe(a, c)
  {
    if a != "" && a[0] == b[0] == c[0] { StringLeTransitive(a[1..], b[1..], c[1..]); }
  }

  lemma StringOrder()
    ensures TotalOrder(StringLe)
  {
    forall x, y
      ensures StringLe(x, y) || StringLe(y, x)
    {
      StringLeTotal(x, y);
    }
    forall x, y | StringLe(x, y) && StringLe(y, x)
      ensures x == y
    {
      StringLeAntisymmetric(x, y);
    }
    forall x, y, z | StringLe(x, y) && StringLe(y, z)
      ensures StringLe(x, z)
    {
      StringLeTransitive(x, y, z);
    }
  }
}
