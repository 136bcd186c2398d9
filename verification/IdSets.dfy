/** Finite sets of integer ids: least member and ascending listing. */
module IdSets {
  import opened Collections

  ghost predicate IsMin(m: int, s: set<int>) {
    m in s && forall x | x in s :: m <= x
  }

  /** The smallest id; the empty set has no part in any cluster list. */
  ghost function Least(s: set<int>): (m: int)
    ensures s != {} ==> IsMin(m, s)
  {
    if s == {} then 0
    else
      MinExists(s);
      var m :| IsMin(m, s);
      m
  }

  lemma {:induction false} MinExists(s: set<int>)
    requires s != {}
    ensures exists m :: IsMin(m, s)
    decreases |s|
  {
    var x := Pick(s);
    assert s == (s - {x}) + {x};
    if s - {x} == {} {
      assert IsMin(x, s);
    } else {
      MinExists(s - {x});
      var m :| IsMin(m, s - {x});
      assert IsMin(if x < m then x else m, s);
    }
  }

  /** `min(members)`. */
  method SmallestOf(s: set<int>) returns (m: int)
    requires s != {}
    ensures m == Least(s)
  {
    ghost var w := Pick(s);
    m :| m in s;
    var rest := s;
    while rest != {}
      invariant rest <= s && m in s
      invariant forall x | x in s && x !in rest :: m <= x
      decreases rest
    {
      ghost var w := Pick(rest);
      var x :| x in rest;
      if x < m { m := x; }
      rest := rest - {x};
    }
    assert IsMin(m, s);
  }

  ghost predicate Increasing(q: seq<int>) {
    forall i, j | 0 <= i < j < |q| :: q[i] < q[j]
  }

  /** A set of ids in ascending order: `sorted(...)`. */
  ghost function Ascend(s: set<int>): (q: seq<int>)
    ensures Increasing(q) && forall x :: x in q <==> x in s
    decreases |s|
  {
    if s == {} then []
    else
      assert s == (s - {Least(s)}) + {Least(s)};
      [Least(s)] + Ascend(s - {Least(s)})
  }

  lemma {:induction false} IncreasingUnique(p: seq<int>, q: seq<int>)
    requires Increasing(p) && Increasing(q) && forall x :: x in p <==> x in q
    ensures p == q
    decreases |p|
  {
    assert q != [] ==> q[0] in q && q[0] in p;
    if p != [] {
      assert p[0] in p && p[0] in q;
      assert p[0] == q[0];
      forall x ensures x in p[1..] <==> x in q[1..] {
        InTail(p, x);
        InTail(q, x);
      }
      IncreasingUnique(p[1..], q[1..]);
      assert p == [p[0]] + p[1..] && q == [q[0]] + q[1..];
    }
  }

  lemma InTail(q: seq<int>, x: int)
    requires Increasing(q) && q != []
    ensures x in q[1..] <==> x in q && x != q[0]
  {
    if x in q && x != q[0] {
      var i :| 0 <= i < |q| && q[i] == x;
      assert q[1..][i - 1] == x;
    }
  }

  /** Take the smallest remaining id until none is left. */
  method SortedIds(s: set<int>) returns (q: seq<int>)
    ensures q == Ascend(s)
  {
    q := [];
    var rest := s;
    while rest != {}
      invariant rest <= s && Increasing(q)
      invariant forall x :: x in q <==> x in s && x !in rest
      invariant forall x, y | x in q && y in rest :: x < y
      decreases rest
    {
      var m := SmallestOf(rest);
      forall i | 0 <= i < |q| ensures q[i] < m { assert q[i] in q; }
      q := q + [m];
      rest := rest - {m};
    }
    IncreasingUnique(q, Ascend(s));
  }
}
