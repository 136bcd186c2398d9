/** Sorting by a text key, as Python's `sorted(..., key=...)` does on ASCII keys. */
module KeyOrder {
  import opened ByteOrder

  ghost predicate Injective<T(!new)>(key: T -> Bytes) {
    forall a, b :: key(a) == key(b) ==> a == b
  }

  ghost predicate Ordered<T>(key: T -> Bytes, q: seq<T>) {
    forall i, j | 0 <= i < j < |q| :: !Less(key(q[j]), key(q[i]))
  }

  ghost predicate First<T>(key: T -> Bytes, m: multiset<T>, x: T) {
    x in m && forall y | y in m :: !Less(key(y), key(x))
  }

  lemma FirstExists<T>(key: T -> Bytes, m: multiset<T>)
    requires m != multiset{}
    ensures exists x :: First(key, m, x)
  {
    var w :| w in m;
    var keys := set y | y in m :: key(y);
    assert key(w) in keys;
    var k := Least(keys);
    var x :| x in m && key(x) == k;
    forall y | y in m ensures !Less(key(y), key(x)) {
      assert key(y) in keys;
      if Less(key(y), k) { LessAsymmetric(key(y), k); }
    }
    assert First(key, m, x);
  }

  /** The bag listed in key order. */
  ghost function Sort<T>(key: T -> Bytes, m: multiset<T>): (q: seq<T>)
    ensures multiset(q) == m && Ordered(key, q)
    decreases |m|
  {
    if m == multiset{} then []
    else
      FirstExists(key, m);
      var x :| First(key, m, x);
      var rest := Sort(key, m - multiset{x});
      ConsOrdered(key, m, x, rest);
      [x] + rest
  }

  lemma ConsOrdered<T>(key: T -> Bytes, m: multiset<T>, x: T, rest: seq<T>)
    requires First(key, m, x) && multiset(rest) == m - multiset{x} && Ordered(key, rest)
    ensures Ordered(key, [x] + rest) && multiset([x] + rest) == m
  {
    forall j | 0 <= j < |rest| ensures !Less(key(rest[j]), key(x)) {
      assert rest[j] in multiset(rest);
    }
    assert m == multiset{x} + (m - multiset{x});
  }

  /** An injective key leaves no choice: equal bags sort to equal lists. */
  lemma {:induction false} OrderedUnique<T(!new)>(key: T -> Bytes, p: seq<T>, q: seq<T>)
    requires Injective(key) && Ordered(key, p) && Ordered(key, q) && multiset(p) == multiset(q)
    ensures p == q
    decreases |p|
  {
    if p == [] {
      assert |multiset(q)| == 0;
    } else {
      assert |multiset(q)| == |p| > 0;
      assert p[0] in multiset(q) && q[0] in multiset(p);
      HeadFirst(key, p, q[0]);
      HeadFirst(key, q, p[0]);
      LessTotal(key(p[0]), key(q[0]));
      assert p[0] == q[0];
      assert p == [p[0]] + p[1..] && q == [q[0]] + q[1..];
      assert multiset(p[1..]) == multiset(p) - multiset{p[0]};
      assert multiset(q[1..]) == multiset(q) - multiset{q[0]};
      OrderedUnique(key, p[1..], q[1..]);
    }
  }

  lemma HeadFirst<T>(key: T -> Bytes, q: seq<T>, x: T)
    requires q != [] && Ordered(key, q) && x in multiset(q)
    ensures !Less(key(x), key(q[0]))
  {
    var i :| 0 <= i < |q| && q[i] == x;
    LessIrreflexive(key(x));
  }

  /** `sorted`, by insertion. */
  method SortBy<T(!new)>(key: T -> Bytes, items: seq<T>) returns (q: seq<T>)
    requires Injective(key)
    ensures q == Sort(key, multiset(items))
  {
    q := [];
    for n := 0 to |items|
      invariant Ordered(key, q) && multiset(q) == multiset(items[..n])
    {
      var x := items[n];
      var k := 0;
      while k < |q| && !Less(key(x), key(q[k]))
        invariant k <= |q|
        invariant forall i | 0 <= i < k :: !Less(key(x), key(q[i]))
      {
        k := k + 1;
      }
      InsertOrdered(key, q, k, x);
      InsertBag(q, k, x);
      q := q[..k] + [x] + q[k..];
      assert items[..n + 1] == items[..n] + [x];
    }
    assert items[..|items|] == items;
    OrderedUnique(key, q, Sort(key, multiset(items)));
  }

  lemma InsertOrdered<T>(key: T -> Bytes, q: seq<T>, k: nat, x: T)
    requires Ordered(key, q) && k <= |q|
    requires forall i | 0 <= i < k :: !Less(key(x), key(q[i]))
    requires k < |q| ==> Less(key(x), key(q[k]))
    ensures Ordered(key, q[..k] + [x] + q[k..])
  {
    var r := q[..k] + [x] + q[k..];
    hide Less;
    forall j | k <= j < |q| ensures !Less(key(q[j]), key(x)) {
      LessIrreflexive(key(q[j]));
      if Less(key(q[j]), key(x)) { LessTransitive(key(q[j]), key(x), key(q[k])); }
    }
    forall i, j | 0 <= i < j < |r| ensures !Less(key(r[j]), key(r[i])) {
      assert r[i] == if i < k then q[i] else if i == k then x else q[i - 1];
      assert r[j] == if j < k then q[j] else if j == k then x else q[j - 1];
    }
  }

  lemma InsertBag<T>(q: seq<T>, k: nat, x: T)
    requires k <= |q|
    ensures multiset(q[..k] + [x] + q[k..]) == multiset(q) + multiset{x}
  {
    assert q == q[..k] + q[k..];
  }
}
