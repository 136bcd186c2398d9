/** The immutable source directory and the order in which the resumable walk
    visits it: a frontier of pending directories, least path first, each with an
    optional filename cursor. Everything here is what the walk MEANS; the code
    that performs it is in `IngestProgress`. */
module SourceTree {
  import opened Wrappers
  import opened ByteOrder
  import opened Collections

  type Path = Bytes
  type Name = Bytes

  /** What one directory entry answers to the walk's questions. A link to a
      directory is neither followed nor ingested, an unreadable entry is skipped. */
  datatype Kind = Directory | LinkToDirectory | File | Unreadable

  datatype Entry = Entry(name: Name, kind: Kind)

  const SLASH: byte := 47

  /** The path of an entry, relative to the source root `[]`. */
  function Child(d: Path, n: Name): Path { if d == [] then n else d + [SLASH] + n }

  /** A source tree whose listings never change between attempts. A directory
      below a symbolic link, or one that cannot be opened, lists nothing. */
  datatype Source = Source(root: Bytes, listings: map<Path, seq<Entry>>, linked: set<Path>) {

    ghost predicate Valid() {
      forall d | d in listings ::
        (forall i | 0 <= i < |listings[d]| :: listings[d][i].name != []) &&
        (forall i, j | 0 <= i < j < |listings[d]| :: listings[d][i].name != listings[d][j].name)
    }

    function Scan(d: Path): seq<Entry> {
      if d in linked || d !in listings then [] else listings[d]
    }

    function Subdirs(d: Path): set<Path> {
      set e | e in Scan(d) && e.kind.Directory? :: Child(d, e.name)
    }

    function Files(d: Path): set<Name> {
      set e | e in Scan(d) && e.kind.File? :: e.name
    }

    ghost function AllSubdirs(): set<Path> {
      set d, c | d in listings && c in Subdirs(d) :: c
    }
  }

  /** Pending directories with their filename cursors. */
  type Frontier = map<Path, Option<Name>>

  /** Files of `d` still to be ingested: those after the cursor. */
  function Pending(src: Source, d: Path, cursor: Option<Name>): set<Name> {
    set f | f in src.Files(d) && (cursor.None? || Less(cursor.value, f))
  }

  /** `INSERT OR IGNORE` of every subdirectory of `d`: a known one keeps its cursor. */
  function WithChildren(src: Source, d: Path, fr: Frontier): Frontier {
    fr + map c | c in src.Subdirs(d) - fr.Keys :: None
  }

  /** The frontier once its least directory is finished. */
  ghost function Advance(src: Source, fr: Frontier): Frontier
    requires fr != map[]
  {
    var d := Least(fr.Keys);
    WithChildren(src, d, fr) - {d}
  }

  lemma ChildIsLater(d: Path, n: Name)
    requires n != []
    ensures Less(d, Child(d, n))
  {
    if d != [] {
      PrefixIsLess(d, [SLASH] + n);
      assert d + ([SLASH] + n) == d + [SLASH] + n;
    }
  }

  lemma SubdirsAreLater(src: Source, d: Path)
    requires src.Valid()
    ensures forall c | c in src.Subdirs(d) :: Less(d, c)
  {
    forall c | c in src.Subdirs(d) ensures Less(d, c) {
      var e :| e in src.Scan(d) && e.kind.Directory? && c == Child(d, e.name);
      ChildIsLater(d, e.name);
    }
  }

  /** Every path the walk can still reach lies here; finishing a directory shrinks it. */
  ghost function Ahead(src: Source, keys: set<Path>): set<Path> {
    set p | p in keys + src.AllSubdirs() && exists q :: q in keys && (q == p || Less(q, p))
  }

  lemma AdvanceShrinks(src: Source, fr: Frontier)
    requires src.Valid() && fr != map[]
    ensures Ahead(src, Advance(src, fr).Keys) < Ahead(src, fr.Keys)
    ensures Least(fr.Keys) !in Advance(src, fr)
    ensures forall k | k in Advance(src, fr) :: Less(Least(fr.Keys), k)
    ensures Advance(src, fr).Keys == fr.Keys - {Least(fr.Keys)} + src.Subdirs(Least(fr.Keys))
  {
    var d := Least(fr.Keys);
    var next := Advance(src, fr);
    SubdirsAreLater(src, d);
    LessIrreflexive(d);
    forall c | c in src.Subdirs(d) ensures c in src.AllSubdirs() {
      assert d in src.listings;
    }
    forall p | p in Ahead(src, next.Keys) ensures p in Ahead(src, fr.Keys) && p != d {
      var q :| q in next.Keys && (q == p || Less(q, p));
      assert Less(d, q);
      if q != p { LessTransitive(d, q, p); }
      LessAsymmetric(d, p);
    }
    assert d in Ahead(src, fr.Keys);
  }

  /** The (directory, file) pairs left to ingest, in the order they are ingested. */
  ghost function Work(src: Source, fr: Frontier): seq<(Path, Name)>
    requires src.Valid()
    decreases Ahead(src, fr.Keys)
  {
    if fr == map[] then []
    else
      AdvanceShrinks(src, fr);
      var d := Least(fr.Keys);
      Tag(d, Listing(Pending(src, d, fr[d]))) + Work(src, Advance(src, fr))
  }

  ghost function Tag(d: Path, names: seq<Name>): seq<(Path, Name)> {
    seq(|names|, i requires 0 <= i < |names| => (d, names[i]))
  }

  /** The directories in visiting order. */
  ghost function VisitOrder(src: Source, fr: Frontier): (order: seq<Path>)
    requires src.Valid()
    decreases Ahead(src, fr.Keys)
  {
    if fr == map[] then []
    else
      AdvanceShrinks(src, fr);
      [Least(fr.Keys)] + VisitOrder(src, Advance(src, fr))
  }

  /** `d` is `from` or lies below it through real subdirectories. */
  ghost predicate Below(src: Source, from: Path, d: Path, steps: seq<Path>)
    decreases |steps|
  {
    if steps == [] then from == d
    else steps[0] in src.Subdirs(from) && Below(src, steps[0], d, steps[1..])
  }

  ghost predicate Reaches(src: Source, from: Path, d: Path) {
    exists steps :: Below(src, from, d, steps)
  }

  /** Every directory at or below a frontier entry. */
  ghost predicate Unfinished(src: Source, keys: set<Path>, d: Path) {
    exists k :: k in keys && Reaches(src, k, d)
  }

  lemma StepReaches(src: Source, from: Path, c: Path, d: Path)
    requires c in src.Subdirs(from) && Reaches(src, c, d)
    ensures Reaches(src, from, d)
  {
    var steps :| Below(src, c, d, steps);
    assert ([c] + steps)[1..] == steps;
    assert Below(src, from, d, [c] + steps);
  }

  lemma ReachesSelf(src: Source, d: Path)
    ensures Reaches(src, d, d)
  {
    assert Below(src, d, d, []);
  }

  lemma ReachesThroughChild(src: Source, m: Path, d: Path)
    requires Reaches(src, m, d) && d != m
    ensures exists c :: c in src.Subdirs(m) && Reaches(src, c, d)
  {
    var steps :| Below(src, m, d, steps);
    assert Below(src, steps[0], d, steps[1..]);
    assert Reaches(src, steps[0], d);
  }

  /** Finishing the least directory removes exactly that directory from the
      unfinished ones: none is lost, and none that is finished comes back. */
  lemma AdvanceUnfinished(src: Source, fr: Frontier, d: Path)
    requires src.Valid() && fr != map[]
    ensures Unfinished(src, fr.Keys, d) <==>
            d == Least(fr.Keys) || Unfinished(src, Advance(src, fr).Keys, d)
  {
    var m := Least(fr.Keys);
    var next := Advance(src, fr).Keys;
    AdvanceShrinks(src, fr);
    ReachesSelf(src, m);
    hide Source.Valid, Advance, Reaches, Least, Ahead, Less;
    if Unfinished(src, fr.Keys, d) && d != m {
      var k :| k in fr.Keys && Reaches(src, k, d);
      if k == m {
        ReachesThroughChild(src, m, d);
      } else {
        assert k in next;
      }
    }
    if Unfinished(src, next, d) {
      var k :| k in next && Reaches(src, k, d);
      if k !in fr.Keys { StepReaches(src, m, k, d); }
    }
  }

  /** The walk takes directories in strictly increasing byte order and takes
      exactly those at or below the frontier. */
  lemma {:induction false} VisitOrderIsSortedReachable(src: Source, fr: Frontier)
    requires src.Valid()
    ensures Ascending(VisitOrder(src, fr))
    ensures forall d :: d in VisitOrder(src, fr) <==> Unfinished(src, fr.Keys, d)
    ensures fr != map[] ==> forall d | d in VisitOrder(src, fr) ::
              d == Least(fr.Keys) || Less(Least(fr.Keys), d)
    decreases Ahead(src, fr.Keys)
  {
    if fr != map[] {
      AdvanceShrinks(src, fr);
      var m := Least(fr.Keys);
      var next := Advance(src, fr);
      VisitOrderIsSortedReachable(src, next);
      var rest := VisitOrder(src, next);
      forall d | d in rest ensures Less(m, d) {
        if next != map[] && d != Least(next.Keys) {
          LessTransitive(m, Least(next.Keys), d);
        }
      }
      forall d ensures d in VisitOrder(src, fr) <==> Unfinished(src, fr.Keys, d) {
        AdvanceUnfinished(src, fr, d);
        assert d in [m] + rest <==> d == m || d in rest;
      }
    }
  }

  /** All files of the listed directories, directory by directory. */
  ghost function AllFiles(src: Source, order: seq<Path>): seq<(Path, Name)> {
    if order == [] then []
    else Tag(order[0], Listing(src.Files(order[0]))) + AllFiles(src, order[1..])
  }

  const START: Frontier := map[[] := None]

  /** From a frontier without cursors, the work is every file of every reachable
      directory, directories and files each in byte order. */
  lemma {:induction false} WorkIsAllFiles(src: Source, fr: Frontier)
    requires src.Valid()
    requires forall k | k in fr :: fr[k].None?
    ensures Work(src, fr) == AllFiles(src, VisitOrder(src, fr))
    decreases Ahead(src, fr.Keys)
  {
    if fr != map[] {
      AdvanceShrinks(src, fr);
      var m := Least(fr.Keys);
      assert Pending(src, m, fr[m]) == src.Files(m);
      WorkIsAllFiles(src, Advance(src, fr));
      assert VisitOrder(src, fr)[1..] == VisitOrder(src, Advance(src, fr));
    }
  }

  lemma TagMembers(d: Path, names: seq<Name>)
    ensures forall x, f :: (x, f) in Tag(d, names) <==> x == d && f in names
  {
    forall f | f in names ensures (d, f) in Tag(d, names) {
      var i :| 0 <= i < |names| && names[i] == f;
      assert Tag(d, names)[i] == (d, f);
    }
  }

  /** Each file of each listed directory occurs... */
  lemma {:induction false} AllFilesMembers(src: Source, order: seq<Path>)
    ensures forall d, f :: (d, f) in AllFiles(src, order) <==> d in order && f in src.Files(d)
  {
    if order != [] {
      var names := Listing(src.Files(order[0]));
      TagMembers(order[0], names);
      AllFilesMembers(src, order[1..]);
      assert forall f :: f in names <==> f in Elements(names);
      forall d, f ensures (d, f) in AllFiles(src, order) <==> d in order && f in src.Files(d) {
        assert d in order <==> d == order[0] || d in order[1..];
      }
    }
  }

  lemma AscendingDistinct(q: seq<Bytes>)
    requires Ascending(q)
    ensures Distinct(q)
  {
    forall i, j | 0 <= i < j < |q| ensures q[i] != q[j] { LessIrreflexive(q[i]); }
  }

  /** ...and occurs once. */
  lemma {:induction false} AllFilesDistinct(src: Source, order: seq<Path>)
    requires Distinct(order)
    ensures Distinct(AllFiles(src, order))
  {
    if order != [] {
      var names := Listing(src.Files(order[0]));
      AscendingDistinct(names);
      TagMembers(order[0], names);
      AllFilesMembers(src, order[1..]);
      AllFilesDistinct(src, order[1..]);
      assert order[0] !in order[1..];
      DistinctConcat(Tag(order[0], names), AllFiles(src, order[1..]));
    }
  }

  /** An uninterrupted walk ingests every file of every reachable directory
      exactly once, in the order fixed by byte order alone. */
  lemma FullWalk(src: Source)
    requires src.Valid()
    ensures forall d, f :: (d, f) in Work(src, START) <==> Reaches(src, [], d) && f in src.Files(d)
    ensures Distinct(Work(src, START))
  {
    VisitOrderIsSortedReachable(src, START);
    WorkIsAllFiles(src, START);
    AllFilesMembers(src, VisitOrder(src, START));
    AscendingDistinct(VisitOrder(src, START));
    AllFilesDistinct(src, VisitOrder(src, START));
    forall d ensures Unfinished(src, START.Keys, d) <==> Reaches(src, [], d) {}
  }

  // ---- The walk in the tree's own terms ----

  /** Path components joined by '/'. */
  ghost function Spelled(names: seq<Name>): Path {
    if names == [] then []
    else
      var k := |names| - 1;
      if k == 0 then names[0] else Spelled(names[..k]) + ['/' as int as byte] + names[k]
  }

  /** The directory can be listed: it is there, with no symbolic link on its path. */
  ghost predicate Opens(src: Source, d: Path) { d in src.listings && d !in src.linked }

  /** Each name is a real directory entry of the directory the names before it spell. */
  ghost predicate Descends(src: Source, names: seq<Name>) {
    forall i | 0 <= i < |names| :: DirectoryIn(src, Spelled(names[..i]), names[i])
  }

  ghost predicate DirectoryIn(src: Source, d: Path, n: Name) {
    Opens(src, d) && Entry(n, Directory) in src.listings[d]
  }

  ghost predicate FileIn(src: Source, d: Path, f: Name) {
    Opens(src, d) && Entry(f, File) in src.listings[d]
  }

  ghost predicate Descent(src: Source, names: seq<Name>, d: Path) { Descends(src, names) && Spelled(names) == d }

  lemma Entries(src: Source, d: Path, n: Name)
    ensures n in src.Files(d) <==> FileIn(src, d, n)
    ensures forall c | c in src.Subdirs(d) :: exists m :: DirectoryIn(src, d, m) && c == Child(d, m)
    ensures DirectoryIn(src, d, n) ==> Child(d, n) in src.Subdirs(d)
  {
    if n in src.Files(d) {
      var e :| e in src.Scan(d) && e.kind.File? && e.name == n;
      assert e == Entry(n, File);
    }
    if FileIn(src, d, n) { assert Entry(n, File) in src.Scan(d); }
    forall c | c in src.Subdirs(d) ensures exists m :: DirectoryIn(src, d, m) && c == Child(d, m) {
      var e :| e in src.Scan(d) && e.kind.Directory? && c == Child(d, e.name);
      assert e == Entry(e.name, Directory);
      assert DirectoryIn(src, d, e.name);
    }
    if DirectoryIn(src, d, n) { assert Entry(n, Directory) in src.Scan(d); }
  }

  /** One name more spells the child. */
  lemma SpelledChild(src: Source, names: seq<Name>, n: Name)
    requires src.Valid() && Descends(src, names) && DirectoryIn(src, Spelled(names), n)
    ensures Descends(src, names + [n]) && Spelled(names + [n]) == Child(Spelled(names), n)
  {
    var more := names + [n];
    assert more[..|names|] == names;
    forall i | 0 <= i < |more| ensures DirectoryIn(src, Spelled(more[..i]), more[i]) {
      if i < |names| { assert more[..i] == names[..i]; }
    }
    if names != [] {
      var k := |names| - 1;
      assert DirectoryIn(src, Spelled(names[..k]), names[k]);
      assert names[k] != [];
      assert Spelled(names) != [];
    }
  }

  lemma {:induction false} BelowSpelled(src: Source, names: seq<Name>, d: Path, steps: seq<Path>)
    requires src.Valid() && Descends(src, names) && Below(src, Spelled(names), d, steps)
    ensures exists all :: Descent(src, all, d)
    decreases |steps|
  {
    if steps == [] {
      assert Descent(src, names, d);
    } else {
      Entries(src, Spelled(names), []);
      var n :| DirectoryIn(src, Spelled(names), n) && steps[0] == Child(Spelled(names), n);
      SpelledChild(src, names, n);
      BelowSpelled(src, names + [n], d, steps[1..]);
    }
  }

  lemma {:induction false} StepAtEnd(src: Source, from: Path, d: Path, steps: seq<Path>, c: Path)
    requires Below(src, from, d, steps) && c in src.Subdirs(d)
    ensures Reaches(src, from, c)
    decreases |steps|
  {
    if steps == [] {
      ReachesSelf(src, c);
      StepReaches(src, from, c, c);
    } else {
      StepAtEnd(src, steps[0], d, steps[1..], c);
      StepReaches(src, from, steps[0], c);
    }
  }

  lemma DescendsBefore(src: Source, names: seq<Name>)
    requires Descends(src, names) && names != []
    ensures var k := |names| - 1;
            Descends(src, names[..k]) && DirectoryIn(src, Spelled(names[..k]), names[k])
  {
    hide Spelled, DirectoryIn;
    var k := |names| - 1;
    forall i | 0 <= i < k ensures DirectoryIn(src, Spelled(names[..k][..i]), names[..k][i]) {
      assert names[..k][..i] == names[..i];
    }
  }

  lemma {:induction false} SpelledReached(src: Source, names: seq<Name>)
    requires src.Valid() && Descends(src, names)
    ensures Reaches(src, [], Spelled(names))
  {
    hide Source.Valid, DirectoryIn, Descends, Below, Reaches, Child, Source.Subdirs;
    if names == [] {
      ReachesSelf(src, []);
    } else {
      var before, n := names[..|names| - 1], names[|names| - 1];
      DescendsBefore(src, names);
      SpelledReached(src, before);
      assert before + [n] == names;
      SpelledChild(src, before, n);
      Entries(src, Spelled(before), n);
      ReachesOn(src, [], Spelled(before), Spelled(names));
    }
  }

  lemma ReachesOn(src: Source, from: Path, d: Path, c: Path)
    requires Reaches(src, from, d) && c in src.Subdirs(d)
    ensures Reaches(src, from, c)
  {
    var steps :| Below(src, from, d, steps);
    StepAtEnd(src, from, d, steps, c);
  }

  /** In terms of names alone: a file is ingested exactly when real directory
      entries lead from the root to its directory, which opens with no link on its
      path, and the file is an entry of it. */
  lemma WalkedFiles(src: Source, d: Path, f: Name)
    requires src.Valid()
    ensures (d, f) in Work(src, START) <==> FileIn(src, d, f) && exists names :: Descent(src, names, d)
  {
    FullWalk(src);
    Entries(src, d, f);
    if Reaches(src, [], d) {
      var steps :| Below(src, [], d, steps);
      BelowSpelled(src, [], d, steps);
    }
    if names :| Descent(src, names, d) { SpelledReached(src, names); }
  }

  /** The frontier after `n` finished directories. */
  ghost function After(src: Source, fr: Frontier, n: nat): Frontier
    decreases n
  {
    if n == 0 || fr == map[] then fr else After(src, Advance(src, fr), n - 1)
  }

  /** A finished directory never comes back, however much later: everything in
      any later frontier, rescans included, lies after it in byte order. */
  lemma {:induction false} NeverReinserted(src: Source, fr: Frontier, n: nat)
    requires src.Valid() && fr != map[] && n > 0
    ensures Least(fr.Keys) !in After(src, fr, n)
    ensures forall k | k in After(src, fr, n) :: Less(Least(fr.Keys), k)
    decreases n
  {
    var m := Least(fr.Keys);
    var next := Advance(src, fr);
    AdvanceShrinks(src, fr);
    LessIrreflexive(m);
    if n > 1 && next != map[] {
      NeverReinserted(src, next, n - 1);
      forall k | k in After(src, fr, n) ensures Less(m, k) {
        LessTransitive(m, Least(next.Keys), k);
      }
    }
  }

  /** Scanning a directory again after a crash: its subdirectories are already in
      the frontier, and it is still the least, so the work left is the work after
      the cursor followed by the same continuation. */
  lemma RescanWork(src: Source, fr: Frontier, d: Path, cursor: Option<Name>)
    requires src.Valid() && fr != map[] && d == Least(fr.Keys)
    ensures var fr' := WithChildren(src, d, fr)[d := cursor];
            Least(fr'.Keys) == d && fr' != map[] && Advance(src, fr') == Advance(src, fr) &&
            Work(src, fr') == Tag(d, Listing(Pending(src, d, cursor))) + Work(src, Advance(src, fr))
  {
    var fr' := WithChildren(src, d, fr)[d := cursor];
    SubdirsAreLater(src, d);
    forall x | x in fr'.Keys ensures x == d || Less(d, x) {}
    assert IsLeast(d, fr'.Keys);
    LeastUnique(d, Least(fr'.Keys), fr'.Keys);
    assert WithChildren(src, d, fr') == fr';
    assert Advance(src, fr') == Advance(src, fr);
  }

  /** Ingesting the first pending file moves the cursor past exactly that file. */
  lemma PendingAfter(src: Source, d: Path, cursor: Option<Name>, names: seq<Name>)
    requires names != [] && names == Listing(Pending(src, d, cursor))
    ensures names[1..] == Listing(Pending(src, d, Some(names[0])))
  {
    var f := names[0];
    TailElements(names);
    assert f in Elements(names);
    LessIrreflexive(f);
    forall g ensures g in Pending(src, d, Some(f)) <==> g in Pending(src, d, cursor) - {f} {
      if g in Pending(src, d, cursor) && g != f {
        assert g in Elements(names);
        var i :| 0 <= i < |names| && names[i] == g;
        assert Less(names[0], names[i]);
      }
      if g in Pending(src, d, Some(f)) && cursor.Some? { LessTransitive(cursor.value, f, g); }
    }
    assert Pending(src, d, Some(f)) == Pending(src, d, cursor) - {f};
    AscendingUnique(names[1..], Listing(Pending(src, d, Some(f))));
  }
}
