/** Facts about sets and sequences that several modules use. */
module Collections {

  ghost function Elements<T>(q: seq<T>): set<T> { set x | x in q }

  ghost predicate Distinct<T>(q: seq<T>) {
    forall i, j | 0 <= i < j < |q| :: q[i] != q[j]
  }

  /** A member of a non-empty set. */
  ghost function Pick<T>(s: set<T>): (x: T)
    requires s != {}
    ensures x in s
  {
    var x :| x in s; x
  }

  lemma ConsElements<T>(x: T, q: seq<T>)
    ensures Elements([x] + q) == {x} + Elements(q)
    ensures forall y | y in q :: y in Elements(q)
  {
    assert x in [x] + q;
    forall y | y in q ensures y in [x] + q {
      var i :| 0 <= i < |q| && q[i] == y;
      assert ([x] + q)[i + 1] == y;
    }
  }

  lemma AppendElements<T>(q: seq<T>, x: T)
    ensures Elements(q + [x]) == Elements(q) + {x}
  {
    assert (q + [x])[|q|] == x;
    forall y | y in q ensures y in q + [x] {
      var i :| 0 <= i < |q| && q[i] == y;
      assert (q + [x])[i] == y;
    }
  }

  lemma InsertElements<T>(q: seq<T>, k: nat, x: T)
    requires k <= |q|
    ensures forall y :: y in q[..k] + [x] + q[k..] <==> y in q || y == x
  {
    var r := q[..k] + [x] + q[k..];
    assert r[k] == x;
    forall y | y in q ensures y in r {
      var i :| 0 <= i < |q| && q[i] == y;
      assert r[if i < k then i else i + 1] == y;
    }
  }

  lemma DistinctConcat<T>(p: seq<T>, q: seq<T>)
    requires Distinct(p) && Distinct(q) && forall x | x in p :: x !in q
    ensures Distinct(p + q)
  {
    forall i, j | 0 <= i < j < |p + q| ensures (p + q)[i] != (p + q)[j] {
      if i < |p| && j >= |p| { assert p[i] in p && q[j - |p|] in q; }
    }
  }

  lemma {:induction false} DistinctElements<T>(q: seq<T>)
    requires Distinct(q)
    ensures |Elements(q)| == |q|
    decreases |q|
  {
    if q != [] {
      DistinctElements(q[1..]);
      assert q == [q[0]] + q[1..];
      ConsElements(q[0], q[1..]);
      assert q[0] !in q[1..];
    }
  }

  lemma TwoMembers<T>(s: set<T>, x: T, y: T)
    requires x in s && y in s && x != y
    ensures |s| >= 2
  {
    assert s == {x, y} + (s - {x, y});
  }

  lemma SubsetSize<T>(a: set<T>, b: set<T>)
    requires a <= b
    ensures |a| <= |b|
  {
    assert b == a + (b - a);
  }

  lemma TwiceInMultiset<T>(q: seq<T>, i: nat, j: nat)
    requires i < j < |q| && q[i] == q[j]
    ensures multiset(q)[q[i]] >= 2
  {
    assert q == q[..i] + [q[i]] + q[i + 1..j] + [q[j]] + q[j + 1..];
  }

  /** A set in some order. */
  method Enumerate<T(==)>(s: set<T>) returns (q: seq<T>)
    ensures Distinct(q) && multiset(q) == multiset(s) && forall x :: x in q <==> x in s
  {
    q := [];
    var rest := s;
    while rest != {}
      invariant rest <= s && Distinct(q) && multiset(q) == multiset(s - rest)
      invariant forall x :: x in q <==> x in s && x !in rest
      decreases rest
    {
      ghost var w := Pick(rest);
      var x :| x in rest;
      assert x !in q;
      q := q + [x];
      assert s - (rest - {x}) == (s - rest) + {x};
      rest := rest - {x};
    }
    assert s - rest == s;
  }
}
