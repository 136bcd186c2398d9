/** The cluster stage: union-find with path compression over the match edges.
    Parent links always lead to a smaller id, so a root is the minimum of its
    class, and compression changes links but no root. */
module Clustering {
  import opened Collections
  import opened IdSets

  type Edge = (int, int)

  // ---- What clusters are ----

  ghost predicate Joined(edges: set<Edge>, x: int, y: int) {
    (x, y) in edges || (y, x) in edges
  }

  /** A chain of edges, taken in either direction. */
  ghost predicate Chain(edges: set<Edge>, p: seq<int>) {
    p != [] && forall i | 0 <= i < |p| - 1 :: Joined(edges, p[i], p[i + 1])
  }

  ghost predicate ChainFromTo(edges: set<Edge>, p: seq<int>, x: int, y: int) {
    Chain(edges, p) && p[0] == x && p[|p| - 1] == y
  }

  /** The equivalence closure of the edges. */
  ghost predicate Linked(edges: set<Edge>, x: int, y: int) {
    exists p :: ChainFromTo(edges, p, x, y)
  }

  ghost predicate SortedByMin(result: seq<set<int>>) {
    {} !in result &&
    forall i, j | 0 <= i < j < |result| :: Least(result[i]) < Least(result[j])
  }

  ghost predicate InSome(result: seq<set<int>>, x: int) {
    exists s :: s in result && x in s
  }

  /** A whole linked class, of at least two ids. */
  ghost predicate IsCluster(edges: set<Edge>, s: set<int>) {
    |s| >= 2 && forall x, y | x in s :: y in s <==> Linked(edges, x, y)
  }

  /** The clusters of a set of edges: all linked classes of two or more ids,
      listed by smallest id. */
  ghost predicate IsClusters(edges: set<Edge>, result: seq<set<int>>) {
    (forall s | s in result :: IsCluster(edges, s)) &&
    (forall x, y | x != y && Linked(edges, x, y) :: InSome(result, x)) &&
    SortedByMin(result)
  }

  lemma LinkedSelf(edges: set<Edge>, x: int)
    ensures Linked(edges, x, x)
  {
    assert ChainFromTo(edges, [x], x, x);
  }

  lemma LinkedEdge(edges: set<Edge>, x: int, y: int)
    requires Joined(edges, x, y)
    ensures Linked(edges, x, y)
  {
    assert ChainFromTo(edges, [x, y], x, y);
  }

  lemma LinkedTransitive(edges: set<Edge>, x: int, y: int, z: int)
    requires Linked(edges, x, y) && Linked(edges, y, z)
    ensures Linked(edges, x, z)
  {
    var p :| ChainFromTo(edges, p, x, y);
    var q :| ChainFromTo(edges, q, y, z);
    var r := p + q[1..];
    forall i | 0 <= i < |r| - 1 ensures Joined(edges, r[i], r[i + 1]) {
      if i >= |p| - 1 { assert r[i] == q[i - |p| + 1] && r[i + 1] == q[i - |p| + 2]; }
    }
    assert ChainFromTo(edges, r, x, z);
  }

  lemma LinkedSymmetric(edges: set<Edge>, x: int, y: int)
    requires Linked(edges, x, y)
    ensures Linked(edges, y, x)
  {
    var p :| ChainFromTo(edges, p, x, y);
    var r := seq(|p|, i requires 0 <= i < |p| => p[|p| - 1 - i]);
    forall i | 0 <= i < |r| - 1 ensures Joined(edges, r[i], r[i + 1]) {
      assert Joined(edges, p[|p| - 2 - i], p[|p| - 2 - i + 1]);
    }
    assert ChainFromTo(edges, r, y, x);
  }

  lemma LinkedMonotone(small: set<Edge>, large: set<Edge>, x: int, y: int)
    requires small <= large && Linked(small, x, y)
    ensures Linked(large, x, y)
  {
    var p :| ChainFromTo(small, p, x, y);
    forall i | 0 <= i < |p| - 1 ensures Joined(large, p[i], p[i + 1]) {
      assert Joined(small, p[i], p[i + 1]);
    }
    assert ChainFromTo(large, p, x, y);
  }

  /** Whatever every edge preserves, every chain preserves. */
  lemma {:induction false} ChainPreserves(edges: set<Edge>, p: seq<int>, mark: int -> int)
    requires Chain(edges, p)
    requires forall x, y | Joined(edges, x, y) :: mark(x) == mark(y)
    ensures mark(p[0]) == mark(p[|p| - 1])
    decreases |p|
  {
    if |p| > 1 {
      assert Joined(edges, p[0], p[1]);
      var q := p[1..];
      forall i | 0 <= i < |q| - 1 ensures Joined(edges, q[i], q[i + 1]) {
        assert Joined(edges, p[i + 1], p[i + 1 + 1]);
      }
      ChainPreserves(edges, q, mark);
    }
  }

  lemma LinkedPreserves(edges: set<Edge>, x: int, y: int, mark: int -> int)
    requires Linked(edges, x, y)
    requires forall x, y | Joined(edges, x, y) :: mark(x) == mark(y)
    ensures mark(x) == mark(y)
  {
    var p :| ChainFromTo(edges, p, x, y);
    ChainPreserves(edges, p, mark);
  }

  // ---- The parent forest ----

  /** A link stays inside the forest and never leads to a larger id. */
  ghost predicate Down(parent: map<int, int>, x: int) {
    x in parent ==> parent[x] in parent && parent[x] <= x
  }

  ghost predicate Forest(parent: map<int, int>) {
    forall x :: Down(parent, x)
  }

  ghost function Lower(keys: set<int>, x: int): set<int> { set y | y in keys && y <= x }

  lemma LowerShrinks(keys: set<int>, x: int, y: int)
    requires x in keys && y < x
    ensures Lower(keys, y) < Lower(keys, x)
  {
    assert x in Lower(keys, x) && x !in Lower(keys, y);
  }

  ghost function Root(parent: map<int, int>, x: int): (r: int)
    requires Forest(parent) && x in parent
    ensures r in parent && parent[r] == r && r <= x
    decreases Lower(parent.Keys, x)
  {
    assert Down(parent, x);
    if parent[x] == x then x
    else LowerShrinks(parent.Keys, x, parent[x]); Root(parent, parent[x])
  }

  /** Pointing a node straight at its root moves no root. */
  lemma {:induction false} CompressKeepsRoots(parent: map<int, int>, x: int, y: int)
    requires Forest(parent) && x in parent && y in parent
    ensures var after := parent[x := Root(parent, x)];
            Forest(after) && Root(after, y) == Root(parent, y)
    decreases Lower(parent.Keys, y)
  {
    var after := parent[x := Root(parent, x)];
    forall z ensures Down(after, z) { assert Down(parent, z); }
    assert Down(parent, y);
    var r := Root(parent, x);
    assert after[r] == r;
    if y != x && parent[y] != y {
      LowerShrinks(parent.Keys, y, parent[y]);
      CompressKeepsRoots(parent, x, parent[y]);
    }
  }

  /** Linking one root under a smaller one merges exactly those two classes. */
  lemma {:induction false} LinkRoots(parent: map<int, int>, hi: int, lo: int, y: int)
    requires Forest(parent) && hi in parent && lo in parent && y in parent
    requires parent[hi] == hi && parent[lo] == lo && lo < hi
    ensures var after := parent[hi := lo];
            Forest(after) && Root(after, y) == if Root(parent, y) == hi then lo else Root(parent, y)
    decreases Lower(parent.Keys, y)
  {
    var after := parent[hi := lo];
    forall z ensures Down(after, z) { assert Down(parent, z); }
    assert Down(parent, y);
    assert Root(after, lo) == lo;
    if parent[y] != y {
      LowerShrinks(parent.Keys, y, parent[y]);
      LinkRoots(parent, hi, lo, parent[y]);
    }
  }

  lemma AddSingleton(parent: map<int, int>, a: int, y: int)
    requires Forest(parent) && a !in parent && (y in parent || y == a)
    ensures Forest(parent[a := a])
    ensures Root(parent[a := a], y) == if y == a then a else Root(parent, y)
    decreases Lower(parent.Keys, y)
  {
    var after := parent[a := a];
    forall z ensures Down(after, z) { assert Down(parent, z); }
    assert Down(parent, y);
    if y != a && parent[y] != y {
      LowerShrinks(parent.Keys, y, parent[y]);
      AddSingleton(parent, a, parent[y]);
    }
  }

  /** What the forest knows about the edges read so far: both ends of an edge
      share a root, and every node is linked to its root. */
  ghost predicate Represents(parent: map<int, int>, edges: set<Edge>) {
    Forest(parent) &&
    (forall x, y | (x, y) in edges :: x in parent && y in parent && Root(parent, x) == Root(parent, y)) &&
    (forall x | x in parent :: Linked(edges, x, Root(parent, x)))
  }

  /** Hence two nodes share a root exactly when they are linked. */
  lemma SameRootIffLinked(parent: map<int, int>, edges: set<Edge>, x: int, y: int)
    requires Represents(parent, edges) && x in parent
    ensures Linked(edges, x, y) <==> y in parent && Root(parent, x) == Root(parent, y)
  {
    if y in parent && Root(parent, x) == Root(parent, y) {
      LinkedSymmetric(edges, y, Root(parent, y));
      LinkedTransitive(edges, x, Root(parent, x), y);
    }
    if Linked(edges, x, y) {
      // A node outside the forest is labelled with an id no root can equal.
      var out := Root(parent, x) - 1;
      LinkedPreserves(edges, x, y, n => if n in parent then Root(parent, n) else out);
    }
  }

  lemma LinkedOutside(parent: map<int, int>, edges: set<Edge>, x: int, y: int)
    requires Represents(parent, edges) && x !in parent && Linked(edges, x, y)
    ensures x == y
  {
    var p :| ChainFromTo(edges, p, x, y);
    assert |p| > 1 ==> Joined(edges, p[0], p[1]);
  }

  /** The dictionary of parents, updated in place. */
  class DisjointSets {
    var parent: map<int, int>

    constructor ()
      ensures parent == map[]
    {
      parent := map[];
    }

    /** Walk to the root, then point every node of the path at it. */
    method Find(start: int) returns (root: int)
      requires Forest(parent) && start in parent
      modifies this
      ensures SameRoots(old(parent), parent)
      ensures root == Root(old(parent), start)
    {
      root := start;
      while parent[root] != root
        invariant parent == old(parent)
        invariant root in parent && Root(parent, root) == Root(parent, start)
        decreases Lower(parent.Keys, root)
      {
        assert Down(parent, root);
        LowerShrinks(parent.Keys, root, parent[root]);
        root := parent[root];
      }
      var x := start;
      while parent[x] != root
        invariant SameRoots(old(parent), parent) && x in parent
        invariant Root(parent, x) == root
        decreases Lower(parent.Keys, x)
      {
        ghost var before := parent;
        assert Down(parent, x);
        LowerShrinks(parent.Keys, x, parent[x]);
        forall y | y in parent { CompressKeepsRoots(parent, x, y); }
        var next := parent[x];
        parent := parent[x := root];
        assert Root(before, next) == root;
        x := next;
      }
    }

    /** Record one edge; the smaller root becomes the representative. */
    method Union(a: int, b: int, ghost edges: set<Edge>)
      requires Represents(parent, edges)
      modifies this
      ensures Represents(parent, edges + {(a, b)})
      ensures parent.Keys == old(parent.Keys) + {a, b}
    {
      SetDefault(a, edges);
      SetDefault(b, edges);
      Link(a, b, edges);
    }

    method SetDefault(a: int, ghost edges: set<Edge>)
      requires Represents(parent, edges)
      modifies this
      ensures Represents(parent, edges) && parent.Keys == old(parent.Keys) + {a}
    {
      if a !in parent {
        AddNode(parent, edges, a);
        parent := parent[a := a];
      }
    }

    method Link(a: int, b: int, ghost edges: set<Edge>)
      requires Represents(parent, edges) && a in parent && b in parent
      modifies this
      ensures Represents(parent, edges + {(a, b)}) && parent.Keys == old(parent.Keys)
    {
      ghost var first := parent;
      var ra := Find(a);
      ghost var second := parent;
      SameRootsRepresents(first, second, edges);
      var rb := Find(b);
      SameRootsRepresents(second, parent, edges);
      Merge(parent, edges, a, b);
      RootsKept(first, second, a);
      RootsKept(second, parent, a);
      RootsKept(second, parent, b);
      if ra != rb {
        var hi, lo := if ra > rb then ra else rb, if ra > rb then rb else ra;
        parent := parent[hi := lo];
      }
    }
  }

  lemma RootsKept(before: map<int, int>, after: map<int, int>, x: int)
    requires SameRoots(before, after) && x in before
    ensures x in after && Root(after, x) == Root(before, x) && Root(after, x) in after
  {}

  /** Links may differ, classes and their roots do not. */
  ghost predicate SameRoots(before: map<int, int>, after: map<int, int>) {
    Forest(before) && Forest(after) && after.Keys == before.Keys &&
    forall y | y in after :: Root(after, y) == Root(before, y)
  }

  lemma SameRootsRepresents(before: map<int, int>, after: map<int, int>, edges: set<Edge>)
    requires Represents(before, edges) && SameRoots(before, after)
    ensures Represents(after, edges)
  {}

  lemma AddNode(parent: map<int, int>, edges: set<Edge>, a: int)
    requires Represents(parent, edges) && a !in parent
    ensures Represents(parent[a := a], edges)
  {
    LinkedSelf(edges, a);
    forall y | y in parent || y == a { AddSingleton(parent, a, y); }
  }

  lemma Merge(parent: map<int, int>, edges: set<Edge>, a: int, b: int)
    requires Represents(parent, edges) && a in parent && b in parent
    ensures var ra, rb := Root(parent, a), Root(parent, b);
            Represents(if ra == rb then parent else if ra > rb then parent[ra := rb] else parent[rb := ra],
                       edges + {(a, b)})
  {
    var ra, rb := Root(parent, a), Root(parent, b);
    var all := edges + {(a, b)};
    forall x | x in parent ensures Linked(all, x, Root(parent, x)) {
      LinkedMonotone(edges, all, x, Root(parent, x));
    }
    LinkedEdge(all, a, b);
    LinkedSymmetric(all, a, ra);
    LinkedTransitive(all, ra, a, b);
    LinkedTransitive(all, ra, b, rb);
    LinkedSymmetric(all, ra, rb);
    if ra != rb {
      var hi, lo := if ra > rb then ra else rb, if ra > rb then rb else ra;
      var after := parent[hi := lo];
      forall x | x in parent
        ensures Forest(after) && Root(after, x) == if Root(parent, x) == hi then lo else Root(parent, x)
      {
        LinkRoots(parent, hi, lo, x);
      }
      forall x | x in after ensures Linked(all, x, Root(after, x)) {
        if Root(parent, x) == hi { LinkedTransitive(all, x, hi, lo); }
      }
    }
  }

  /** Connected components of the edges, each with at least two ids, sorted by
      smallest id. */
  method Cluster(edges: seq<Edge>) returns (result: seq<set<int>>)
    ensures IsClusters(Elements(edges), result)
  {
    var sets := new DisjointSets();
    for n := 0 to |edges|
      invariant Represents(sets.parent, Elements(edges[..n]))
    {
      var (a, b) := edges[n];
      assert Elements(edges[..n + 1]) == Elements(edges[..n]) + {edges[n]} by {
        assert edges[..n + 1] == edges[..n] + [edges[n]];
      }
      sets.Union(a, b, Elements(edges[..n]));
    }
    assert edges[..|edges|] == edges;
    ghost var all := Elements(edges);
    ghost var forest := sets.parent;
    var components := Group(sets);
    var found := Large(sets.parent, components);
    result := SortByMin(found);
    SameRootsRepresents(forest, sets.parent, all);
    GroupsAreClusters(sets.parent, all, components, result);
  }

  /** `components.setdefault(find(node), set()).add(node)` for every node. */
  method Group(sets: DisjointSets) returns (components: map<int, set<int>>)
    requires Forest(sets.parent)
    modifies sets
    ensures SameRoots(old(sets.parent), sets.parent)
    ensures Grouped(sets.parent, sets.parent.Keys, components)
  {
    ghost var forest := sets.parent;
    components := map[];
    var nodes := sets.parent.Keys;
    while nodes != {}
      invariant nodes <= forest.Keys && SameRoots(forest, sets.parent)
      invariant Grouped(forest, forest.Keys - nodes, components)
      decreases nodes
    {
      ghost var w := Pick(nodes);
      var node :| node in nodes;
      ghost var before := sets.parent;
      RootsKept(forest, before, node);
      var root := sets.Find(node);
      SameRootsTransitive(forest, before, sets.parent);
      GroupNode(forest, forest.Keys - nodes, components, node);
      components := components[root := (if root in components then components[root] else {}) + {node}];
      assert forest.Keys - (nodes - {node}) == forest.Keys - nodes + {node};
      nodes := nodes - {node};
    }
  }

  lemma SameRootsTransitive(a: map<int, int>, b: map<int, int>, c: map<int, int>)
    requires SameRoots(a, b) && SameRoots(b, c)
    ensures SameRoots(a, c)
  {}

  /** `[members for members in components.values() if len(members) >= 2]`. */
  method Large(ghost forest: map<int, int>, components: map<int, set<int>>) returns (found: seq<set<int>>)
    requires Forest(forest) && Grouped(forest, forest.Keys, components)
    ensures forall s | s in found :: exists r :: r in components && components[r] == s && |s| >= 2
    ensures forall r | r in components && |components[r]| >= 2 :: components[r] in found
    ensures DistinctMinima(found)
  {
    found := [];
    var roots := components.Keys;
    while roots != {}
      invariant roots <= components.Keys
      invariant forall s | s in found :: exists r :: r in components.Keys - roots && components[r] == s && |s| >= 2
      invariant forall r | r in components.Keys - roots && |components[r]| >= 2 :: components[r] in found
      invariant DistinctMinima(found)
      decreases roots
    {
      ghost var w := Pick(roots);
      var root :| root in roots;
      if |components[root]| >= 2 {
        forall s | s in found ensures Least(s) != Least(components[root]) {
          var r :| r in components.Keys - roots && components[r] == s;
          GroupMinimum(forest, components, r);
          GroupMinimum(forest, components, root);
        }
        found := found + [components[root]];
      }
      roots := roots - {root};
    }
  }

  /** The nodes met so far, grouped under their roots. */
  ghost predicate Grouped(forest: map<int, int>, done: set<int>, components: map<int, set<int>>)
    requires Forest(forest)
  {
    done <= forest.Keys &&
    (forall x | x in done :: Root(forest, x) in components) &&
    (forall r | r in components :: components[r] != {}) &&
    (forall r, x | r in components :: x in components[r] <==> x in done && Root(forest, x) == r)
  }

  lemma GroupNode(forest: map<int, int>, done: set<int>, components: map<int, set<int>>, node: int)
    requires Forest(forest) && Grouped(forest, done, components) && node in forest
    ensures var root := Root(forest, node);
            Grouped(forest, done + {node},
                    components[root := (if root in components then components[root] else {}) + {node}])
  {}

  lemma GroupMinimum(forest: map<int, int>, components: map<int, set<int>>, r: int)
    requires Forest(forest) && Grouped(forest, forest.Keys, components) && r in components
    ensures Least(components[r]) == r
  {
    var x := Pick(components[r]);
    assert Root(forest, x) == r;
    assert Root(forest, r) == r;
    forall y | y in components[r] ensures r <= y { assert Root(forest, y) == r; }
    assert IsMin(r, components[r]);
  }

  lemma GroupsAreClusters(forest: map<int, int>, edges: set<Edge>, components: map<int, set<int>>,
                          result: seq<set<int>>)
    requires Represents(forest, edges) && Grouped(forest, forest.Keys, components)
    requires SortedByMin(result)
    requires forall s | s in result :: exists r :: r in components && components[r] == s && |s| >= 2
    requires forall r | r in components && |components[r]| >= 2 :: components[r] in result
    ensures IsClusters(edges, result)
  {
    forall s | s in result ensures IsCluster(edges, s) {
      var r :| r in components && components[r] == s && |s| >= 2;
      forall x, y | x in s ensures y in s <==> Linked(edges, x, y) {
        SameRootIffLinked(forest, edges, x, y);
      }
    }
    forall x, y | x != y && Linked(edges, x, y) ensures InSome(result, x) {
      if x !in forest { LinkedOutside(forest, edges, x, y); }
      SameRootIffLinked(forest, edges, x, y);
      var r := Root(forest, x);
      assert {x, y} <= components[r];
      TwoMembers(components[r], x, y);
      assert components[r] in result && x in components[r];
    }
  }

  ghost predicate DistinctMinima(list: seq<set<int>>) {
    {} !in list &&
    forall i, j | 0 <= i < j < |list| :: Least(list[i]) != Least(list[j])
  }

  /** `result.sort(key=min)`. */
  method SortByMin(list: seq<set<int>>) returns (sorted: seq<set<int>>)
    requires DistinctMinima(list)
    ensures SortedByMin(sorted)
    ensures forall s :: s in sorted <==> s in list
  {
    sorted := [];
    for n := 0 to |list|
      invariant SortedByMin(sorted)
      invariant forall s :: s in sorted <==> s in list[..n]
    {
      var x := list[n];
      assert x in list;
      assert list[..n + 1] == list[..n] + [x];
      var mx := SmallestOf(x);
      var k := 0;
      var placed := false;
      while k < |sorted| && !placed
        invariant k <= |sorted|
        invariant forall i | 0 <= i < k :: Least(sorted[i]) < mx
        invariant placed ==> k < |sorted| && mx < Least(sorted[k])
        decreases |sorted| - k, !placed
      {
        var mk := SmallestOf(sorted[k]);
        assert sorted[k] in sorted;
        var i :| 0 <= i < n && list[i] == sorted[k];
        assert Least(list[i]) != Least(list[n]);
        if mk < mx { k := k + 1; } else { placed := true; }
      }
      InsertSorted(sorted, k, x);
      sorted := sorted[..k] + [x] + sorted[k..];
    }
    assert list[..|list|] == list;
  }

  lemma InsertSorted(sorted: seq<set<int>>, k: nat, x: set<int>)
    requires SortedByMin(sorted) && k <= |sorted| && x != {}
    requires forall i | 0 <= i < k :: Least(sorted[i]) < Least(x)
    requires k < |sorted| ==> Least(x) < Least(sorted[k])
    ensures SortedByMin(sorted[..k] + [x] + sorted[k..])
    ensures forall s :: s in sorted[..k] + [x] + sorted[k..] <==> s in sorted || s == x
  {
    var r := sorted[..k] + [x] + sorted[k..];
    InsertElements(sorted, k, x);
    forall i, j | 0 <= i < j < |r| ensures Least(r[i]) < Least(r[j]) {
      assert i < k ==> r[i] == sorted[i];
      assert j < k ==> r[j] == sorted[j];
      assert i > k ==> r[i] == sorted[i - 1];
      assert j > k ==> r[j] == sorted[j - 1];
      assert j > k + 1 ==> Least(sorted[k]) < Least(sorted[j - 1]);
    }
  }

  /** The clusters of a set of edges are one list, whatever the order in which
      the edges, the nodes or the components were visited. */
  lemma ClustersUnique(edges: set<Edge>, p: seq<set<int>>, q: seq<set<int>>)
    requires IsClusters(edges, p) && IsClusters(edges, q)
    ensures p == q
  {
    forall s ensures s in p <==> s in q {
      if s in p { SharedCluster(edges, p, q, s); }
      if s in q { SharedCluster(edges, q, p, s); }
    }
    SortedUnique(p, q);
  }

  lemma SharedCluster(edges: set<Edge>, p: seq<set<int>>, q: seq<set<int>>, s: set<int>)
    requires IsClusters(edges, p) && IsClusters(edges, q) && s in p
    ensures s in q
  {
    assert IsCluster(edges, s);
    var x := Pick(s);
    assert |{x}| == 1;
    assert s == (s - {x}) + {x};
    var y := Pick(s - {x});
    assert Linked(edges, x, y) && InSome(q, x);
    var t :| t in q && x in t;
    assert IsCluster(edges, t);
    forall z ensures z in s <==> z in t {}
    assert s == t;
  }

  lemma {:induction false} SortedUnique(p: seq<set<int>>, q: seq<set<int>>)
    requires SortedByMin(p) && SortedByMin(q) && forall s :: s in p <==> s in q
    ensures p == q
    decreases |p|
  {
    assert q != [] ==> q[0] in p;
    if p != [] {
      assert p[0] in q;
      SameHead(p, q);
      forall s ensures s in p[1..] <==> s in q[1..] {
        SortedTail(p, s);
        SortedTail(q, s);
      }
      TailSorted(p);
      TailSorted(q);
      SortedUnique(p[1..], q[1..]);
      assert p == [p[0]] + p[1..] && q == [q[0]] + q[1..];
    }
  }

  lemma TailSorted(p: seq<set<int>>)
    requires SortedByMin(p) && p != []
    ensures SortedByMin(p[1..])
  {
    assert forall s | s in p[1..] :: s in p;
  }

  lemma SameHead(p: seq<set<int>>, q: seq<set<int>>)
    requires SortedByMin(p) && SortedByMin(q) && p != [] && q != [] && p[0] in q && q[0] in p
    ensures p[0] == q[0]
  {
    var i :| 0 <= i < |q| && q[i] == p[0];
    var j :| 0 <= j < |p| && p[j] == q[0];
  }

  lemma SortedTail(q: seq<set<int>>, s: set<int>)
    requires SortedByMin(q) && q != []
    ensures s in q[1..] <==> s in q && s != q[0]
  {
    if s in q[1..] {
      var i :| 0 <= i < |q| - 1 && q[1..][i] == s;
      assert Least(q[0]) < Least(q[i + 1]);
    }
    if s in q && s != q[0] {
      var i :| 0 <= i < |q| && q[i] == s;
      assert q[1..][i - 1] == s;
    }
  }
}
