/** Byte strings in the order SQLite gives BLOB keys and Python gives `bytes`:
    lexicographic on unsigned bytes, a proper prefix first. */
module ByteOrder {

  import opened Collections

  newtype byte = x: int | 0 <= x < 256

  type Bytes = seq<byte>

  predicate Less(a: Bytes, b: Bytes) {
    if |b| == 0 then false
    else if |a| == 0 then true
    else a[0] < b[0] || (a[0] == b[0] && Less(a[1..], b[1..]))
  }

  /** The two agree up to the k-th byte, where a ends or has the smaller one. */
  ghost predicate LessAt(a: Bytes, b: Bytes, k: nat) {
    k < |b| && k <= |a| && a[..k] == b[..k] && (k < |a| ==> (a[k] as int) < b[k] as int)
  }

  /** The order is decided at the first byte that differs, by its number; a text
      that ends there comes first. */
  lemma {:induction false} LessAtFirstDifference(a: Bytes, b: Bytes)
    ensures Less(a, b) <==> exists k: nat :: LessAt(a, b, k)
  {
    if a == [] || b == [] || a[0] != b[0] {
      if b != [] && (a == [] || a[0] < b[0]) { assert LessAt(a, b, 0); }
      if k: nat :| LessAt(a, b, k) { SameBefore(a, b, k); }
    } else {
      LessAtFirstDifference(a[1..], b[1..]);
      if k: nat :| LessAt(a[1..], b[1..], k) {
        assert a[..k + 1] == [a[0]] + a[1..][..k] && b[..k + 1] == [b[0]] + b[1..][..k];
        assert LessAt(a, b, k + 1);
      }
      if k: nat :| LessAt(a, b, k) {
        assert a[1..][..k - 1] == a[..k][1..] && b[1..][..k - 1] == b[..k][1..];
        assert LessAt(a[1..], b[1..], k - 1);
      }
    }
  }

  lemma SameBefore(a: Bytes, b: Bytes, k: nat)
    ensures LessAt(a, b, k) && k > 0 ==> a[0] == b[0]
  {
    if LessAt(a, b, k) && k > 0 { assert a[0] == a[..k][0] == b[..k][0]; }
  }

  lemma {:induction false} LessIrreflexive(a: Bytes)
    ensures !Less(a, a)
  {
    if |a| > 0 { LessIrreflexive(a[1..]); }
  }

  lemma {:induction false} LessTransitive(a: Bytes, b: Bytes, c: Bytes)
    requires Less(a, b) && Less(b, c)
    ensures Less(a, c)
  {
    if |a| > 0 && a[0] == b[0] && b[0] == c[0] { LessTransitive(a[1..], b[1..], c[1..]); }
  }

  lemma {:induction false} LessTotal(a: Bytes, b: Bytes)
    ensures Less(a, b) || a == b || Less(b, a)
  {
    if |a| > 0 && |b| > 0 && a[0] == b[0] {
      LessTotal(a[1..], b[1..]);
      if a[1..] == b[1..] { assert a == [a[0]] + a[1..] && b == [b[0]] + b[1..]; }
    }
  }

  lemma LessAsymmetric(a: Bytes, b: Bytes)
    requires Less(a, b)
    ensures !Less(b, a) && a != b
  {
    LessIrreflexive(a);
    if Less(b, a) { LessTransitive(a, b, a); }
  }

  /** Extending a key moves it later: why a directory precedes everything below it. */
  lemma {:induction false} PrefixIsLess(a: Bytes, extra: Bytes)
    requires extra != []
    ensures Less(a, a + extra)
  {
    if |a| > 0 {
      assert (a + extra)[1..] == a[1..] + extra;
      PrefixIsLess(a[1..], extra);
    }
  }

  ghost predicate IsLeast(m: Bytes, s: set<Bytes>) {
    m in s && forall x | x in s :: x == m || Less(m, x)
  }

  lemma {:induction false} LeastExists(s: set<Bytes>)
    requires s != {}
    ensures exists m :: IsLeast(m, s)
    decreases |s|
  {
    var m :| m in s;
    var rest := s - {m};
    assert s == rest + {m};
    if rest == {} {
      assert IsLeast(m, s);
    } else {
      LeastExists(rest);
      var r :| IsLeast(r, rest);
      LessTotal(m, r);
      if Less(m, r) {
        forall x | x in s ensures x == m || Less(m, x) {
          if x in rest && x != r { LessTransitive(m, r, x); }
        }
        assert IsLeast(m, s);
      } else {
        assert IsLeast(r, s);
      }
    }
  }

  lemma LeastUnique(m: Bytes, n: Bytes, s: set<Bytes>)
    requires IsLeast(m, s) && IsLeast(n, s)
    ensures m == n
  {
    if m != n { LessAsymmetric(m, n); }
  }

  /** The least key of a non-empty set: `ORDER BY key LIMIT 1`. */
  ghost function Least(s: set<Bytes>): (m: Bytes)
    requires s != {}
    ensures IsLeast(m, s)
  {
    LeastExists(s);
    var m :| IsLeast(m, s);
    m
  }

  ghost predicate Ascending(q: seq<Bytes>) {
    forall i, j | 0 <= i < j < |q| :: Less(q[i], q[j])
  }

  /** A set listed in byte order: `sorted(...)` of a duplicate-free list. */
  ghost function Listing(s: set<Bytes>): (q: seq<Bytes>)
    ensures Ascending(q) && Elements(q) == s
  {
    if s == {} then []
    else
      var m := Least(s);
      var rest := Listing(s - {m});
      ConsElements(m, rest);
      [m] + rest
  }

  /** Byte order fixes the listing: two ascending lists of one set are equal. */
  lemma {:induction false} AscendingUnique(p: seq<Bytes>, q: seq<Bytes>)
    requires Ascending(p) && Ascending(q) && Elements(p) == Elements(q)
    ensures p == q
    decreases |p|
  {
    assert q != [] ==> q[0] in Elements(p);
    if p != [] {
      assert p[0] in Elements(q);
      assert q != [];
      assert q[0] in Elements(p);
      assert IsLeast(p[0], Elements(p));
      assert IsLeast(q[0], Elements(q));
      LeastUnique(p[0], q[0], Elements(p));
      TailElements(p);
      TailElements(q);
      AscendingUnique(p[1..], q[1..]);
      assert p == [p[0]] + p[1..] && q == [q[0]] + q[1..];
    }
  }

  lemma TailElements(q: seq<Bytes>)
    requires q != [] && Ascending(q)
    ensures Elements(q[1..]) == Elements(q) - {q[0]}
  {
    LessIrreflexive(q[0]);
    forall x ensures x in Elements(q[1..]) <==> x in Elements(q) - {q[0]} {
      if x in q[1..] {
        var i :| 0 <= i < |q| - 1 && q[1..][i] == x;
        assert x == q[i + 1] && Less(q[0], x);
      }
      if x in q && x != q[0] {
        var i :| 0 <= i < |q| && q[i] == x;
        assert x == q[1..][i - 1];
      }
    }
  }

  /** Python's `sorted` on a duplicate-free list of names: insertion, one name at a time. */
  method Sorted(names: seq<Bytes>) returns (q: seq<Bytes>)
    requires forall i, j | 0 <= i < j < |names| :: names[i] != names[j]
    ensures q == Listing(Elements(names))
  {
    q := [];
    for n := 0 to |names|
      invariant Ascending(q) && Elements(q) == Elements(names[..n])
    {
      var x := names[n];
      var k := 0;
      while k < |q| && Less(q[k], x)
        invariant k <= |q|
        invariant forall i | 0 <= i < k :: Less(q[i], x)
      {
        k := k + 1;
      }
      assert forall y | y in q :: y in Elements(names[..n]);
      assert x !in q;
      InsertAscending(q, k, x);
      q := q[..k] + [x] + q[k..];
      assert names[..n + 1] == names[..n] + [x];
    }
    assert names[..|names|] == names;
    AscendingUnique(q, Listing(Elements(names)));
  }

  lemma InsertAscending(q: seq<Bytes>, k: nat, x: Bytes)
    requires Ascending(q) && k <= |q| && x !in q
    requires forall i | 0 <= i < k :: Less(q[i], x)
    requires k < |q| ==> !Less(q[k], x)
    ensures Ascending(q[..k] + [x] + q[k..])
    ensures Elements(q[..k] + [x] + q[k..]) == Elements(q) + {x}
  {
    var r := q[..k] + [x] + q[k..];
    if k < |q| {
      LessTotal(q[k], x);
      forall j | k <= j < |q| ensures Less(x, q[j]) {
        if j > k { LessTransitive(x, q[k], q[j]); }
      }
    }
    forall i, j | 0 <= i < j < |r| ensures Less(r[i], r[j]) {}
    InsertElements(q, k, x);
  }
}
