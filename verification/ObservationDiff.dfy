/** The observation diff: records of two databases compared as bags, identical
    content cancelled, the rest paired in canonical order. */
module ObservationDiff {
  import opened Wrappers
  import opened ByteOrder
  import opened Collections
  import opened KeyOrder

  /** A JSON number: Python compares 1 and 1.0 equal, their texts differ. */
  datatype Number = Whole(n: int) | Float(r: real) {
    function Value(): real { if Whole? then n as real else r }
  }

  datatype Identity = Identity(table: string, key: string, event: string, observedAt: Option<string>)

  /** An observation: its identity and its mutable content. `properties` is the
      canonical text the properties are compared by. */
  datatype Record = Record(identity: Identity, properties: string, observer: Option<string>, confidence: Option<Number>)

  /** `json.dumps` of an identity and of an identity with its content key: texts
      that determine what they were made from. */
  datatype Json = Json(identity: Identity -> Bytes, record: Record -> Bytes) {
    ghost predicate Valid() { Injective(identity) && Injective(record) }
  }

  // ---- The meaning of a diff ----

  datatype Diff = Diff(added: seq<Record>, removed: seq<Record>, pairs: seq<(Record, Record)>)

  function Of(id: Identity, q: seq<Record>): (r: seq<Record>)
    ensures |r| <= |q|
  {
    if q == [] then []
    else Of(id, q[..|q| - 1]) + if q[|q| - 1].identity == id then [q[|q| - 1]] else []
  }

  function Zip(p: seq<Record>, q: seq<Record>): seq<(Record, Record)>
    requires |p| == |q|
  {
    seq(|p|, i requires 0 <= i < |p| => (p[i], q[i]))
  }

  function Min(a: nat, b: nat): nat { if a < b then a else b }

  /** Pair two sorted lists as far as they go; the longer one's tail is excess. */
  function Paired(old': seq<Record>, new': seq<Record>): Diff {
    var p := Min(|old'|, |new'|);
    Diff(new'[p..], old'[p..], Zip(old'[..p], new'[..p]))
  }

  /** One identity: what neither side cancels, in canonical order, paired. */
  ghost function DiffAt(json: Json, id: Identity, old': seq<Record>, new': seq<Record>): Diff {
    var (o, n) := (multiset(Of(id, old')), multiset(Of(id, new')));
    Paired(Sort(json.record, o - n), Sort(json.record, n - o))
  }

  function Join(d: Diff, e: Diff): Diff { Diff(d.added + e.added, d.removed + e.removed, d.pairs + e.pairs) }

  ghost function DiffOver(json: Json, ids: seq<Identity>, old': seq<Record>, new': seq<Record>): Diff {
    if ids == [] then Diff([], [], [])
    else Join(DiffOver(json, ids[..|ids| - 1], old', new'), DiffAt(json, ids[|ids| - 1], old', new'))
  }

  ghost function Identities(old': seq<Record>, new': seq<Record>): set<Identity> {
    set r | r in multiset(old') + multiset(new') :: r.identity
  }

  ghost function FullDiff(json: Json, old': seq<Record>, new': seq<Record>): Diff {
    DiffOver(json, Sort(json.identity, multiset(Identities(old', new'))), old', new')
  }

  // ---- Counting ----

  lemma {:induction false} OfCount(id: Identity, q: seq<Record>, r: Record)
    ensures multiset(Of(id, q))[r] == if r.identity == id then multiset(q)[r] else 0
  {
    if q != [] {
      OfCount(id, q[..|q| - 1], r);
      assert q == q[..|q| - 1] + [q[|q| - 1]];
    }
  }

  function Olds(pairs: seq<(Record, Record)>): seq<Record> { seq(|pairs|, i requires 0 <= i < |pairs| => pairs[i].0) }
  function News(pairs: seq<(Record, Record)>): seq<Record> { seq(|pairs|, i requires 0 <= i < |pairs| => pairs[i].1) }

  /** How often a record leaves, or enters: on its own or in a pair. */
  function Out(d: Diff, r: Record): nat { multiset(d.removed)[r] + multiset(Olds(d.pairs))[r] }
  function In(d: Diff, r: Record): nat { multiset(d.added)[r] + multiset(News(d.pairs))[r] }

  lemma PairedCounts(o: seq<Record>, n: seq<Record>, r: Record)
    ensures Out(Paired(o, n), r) == multiset(o)[r] && In(Paired(o, n), r) == multiset(n)[r]
  {
    var p := Min(|o|, |n|);
    assert o == o[..p] + o[p..] && n == n[..p] + n[p..];
    assert Olds(Zip(o[..p], n[..p])) == o[..p];
    assert News(Zip(o[..p], n[..p])) == n[..p];
  }

  lemma JoinCounts(d: Diff, e: Diff, r: Record)
    ensures Out(Join(d, e), r) == Out(d, r) + Out(e, r) && In(Join(d, e), r) == In(d, r) + In(e, r)
  {
    assert Olds(d.pairs + e.pairs) == Olds(d.pairs) + Olds(e.pairs);
    assert News(d.pairs + e.pairs) == News(d.pairs) + News(e.pairs);
  }

  function Surplus(a: nat, b: nat): nat { if a > b then a - b else 0 }

  /** What one identity removes and adds is what the other side does not cancel. */
  lemma DiffAtCounts(json: Json, id: Identity, old': seq<Record>, new': seq<Record>, r: Record)
    ensures Out(DiffAt(json, id, old', new'), r) ==
              if r.identity == id then Surplus(multiset(old')[r], multiset(new')[r]) else 0
    ensures In(DiffAt(json, id, old', new'), r) ==
              if r.identity == id then Surplus(multiset(new')[r], multiset(old')[r]) else 0
  {
    hide Of, Sort, Paired, Out, In;
    var (o, n) := (multiset(Of(id, old')), multiset(Of(id, new')));
    PairedCounts(Sort(json.record, o - n), Sort(json.record, n - o), r);
    OfCount(id, old', r);
    OfCount(id, new', r);
  }

  /** Over distinct identities, a record is counted at its own identity only. */
  lemma {:induction false} DiffOverCounts(json: Json, ids: seq<Identity>, old': seq<Record>, new': seq<Record>,
                                          r: Record)
    requires Distinct(ids)
    ensures Out(DiffOver(json, ids, old', new'), r) ==
              if r.identity in ids then Surplus(multiset(old')[r], multiset(new')[r]) else 0
    ensures In(DiffOver(json, ids, old', new'), r) ==
              if r.identity in ids then Surplus(multiset(new')[r], multiset(old')[r]) else 0
  {
    hide DiffAt, Join, Surplus;
    if ids == [] {
      assert Olds([]) == [] && News([]) == [];
    } else {
      hide Out, In;
      var before, id := ids[..|ids| - 1], ids[|ids| - 1];
      DiffOverCounts(json, before, old', new', r);
      DiffAtCounts(json, id, old', new', r);
      JoinCounts(DiffOver(json, before, old', new'), DiffAt(json, id, old', new'), r);
      LastIdentity(ids, r.identity);
    }
  }

  lemma LastIdentity(ids: seq<Identity>, id: Identity)
    requires ids != [] && Distinct(ids)
    ensures id in ids <==> id in ids[..|ids| - 1] || id == ids[|ids| - 1]
    ensures ids[|ids| - 1] !in ids[..|ids| - 1]
  {
    assert ids == ids[..|ids| - 1] + [ids[|ids| - 1]];
  }

  lemma SortedDistinct(json: Json, s: set<Identity>)
    ensures Distinct(Sort(json.identity, multiset(s))) &&
            forall id :: id in Sort(json.identity, multiset(s)) <==> id in s
  {
    hide Sort;
    var q := Sort(json.identity, multiset(s));
    forall i, j | 0 <= i < j < |q| ensures q[i] != q[j] {
      if q[i] == q[j] { TwiceInMultiset(q, i, j); }
    }
    forall id ensures id in q <==> id in s { assert id in q <==> id in multiset(q); }
  }

  // ---- The laws ----

  /** The diff is a patch: what leaves was there, and taking it out and putting
      the rest in turns the old bag into the new one. */
  lemma PatchLaw(json: Json, old': seq<Record>, new': seq<Record>)
    ensures var d := FullDiff(json, old', new');
            multiset(d.removed) + multiset(Olds(d.pairs)) <= multiset(old') &&
            multiset(old') - multiset(d.removed) - multiset(Olds(d.pairs)) +
            multiset(d.added) + multiset(News(d.pairs)) == multiset(new')
  {
    hide Sort, DiffOver, Out, In;
    var ids := Sort(json.identity, multiset(Identities(old', new')));
    SortedDistinct(json, Identities(old', new'));
    var d := DiffOver(json, ids, old', new');
    forall r
      ensures Out(d, r) == Surplus(multiset(old')[r], multiset(new')[r]) &&
              In(d, r) == Surplus(multiset(new')[r], multiset(old')[r])
    {
      DiffOverCounts(json, ids, old', new', r);
      Present(old', new', r);
    }
    PatchBags(d, old', new');
  }

  lemma Present(old': seq<Record>, new': seq<Record>, r: Record)
    ensures multiset(old')[r] + multiset(new')[r] > 0 ==> r.identity in Identities(old', new')
  {
    if multiset(old')[r] + multiset(new')[r] > 0 { assert r in multiset(old') + multiset(new'); }
  }

  lemma PatchBags(d: Diff, old': seq<Record>, new': seq<Record>)
    requires forall r ::
              Out(d, r) == Surplus(multiset(old')[r], multiset(new')[r]) &&
              In(d, r) == Surplus(multiset(new')[r], multiset(old')[r])
    ensures multiset(d.removed) + multiset(Olds(d.pairs)) <= multiset(old')
    ensures            multiset(old') - multiset(d.removed) - multiset(Olds(d.pairs)) +
            multiset(d.added) + multiset(News(d.pairs)) == multiset(new')
  {
    hide Olds, News;
    forall r ensures multiset(d.removed)[r] + multiset(Olds(d.pairs))[r] <= multiset(old')[r] {
      assert Out(d, r) == Surplus(multiset(old')[r], multiset(new')[r]);
    }
    forall r
      ensures (multiset(old') - multiset(d.removed) - multiset(Olds(d.pairs)) +
               multiset(d.added) + multiset(News(d.pairs)))[r] == multiset(new')[r]
    {
      assert Out(d, r) == Surplus(multiset(old')[r], multiset(new')[r]) &&
             In(d, r) == Surplus(multiset(new')[r], multiset(old')[r]);
    }
  }

  function Swapped(d: Diff): Diff {
    Diff(d.removed, d.added, seq(|d.pairs|, i requires 0 <= i < |d.pairs| => (d.pairs[i].1, d.pairs[i].0)))
  }

  lemma SwapJoin(d: Diff, e: Diff)
    ensures Join(Swapped(d), Swapped(e)) == Swapped(Join(d, e))
  {
  }

  lemma SwapAt(json: Json, id: Identity, old': seq<Record>, new': seq<Record>)
    ensures DiffAt(json, id, new', old') == Swapped(DiffAt(json, id, old', new'))
  {
    hide Sort, Of;
  }

  lemma {:induction false} SwapOver(json: Json, ids: seq<Identity>, old': seq<Record>, new': seq<Record>)
    ensures DiffOver(json, ids, new', old') == Swapped(DiffOver(json, ids, old', new'))
  {
    if ids != [] {
      hide DiffAt, Swapped, Join;
      SwapOver(json, ids[..|ids| - 1], old', new');
      SwapAt(json, ids[|ids| - 1], old', new');
      SwapJoin(DiffOver(json, ids[..|ids| - 1], old', new'), DiffAt(json, ids[|ids| - 1], old', new'));
    } else {
      assert Swapped(Diff([], [], [])) == Diff([], [], []);
    }
  }

  /** Swapping the databases swaps the sides. */
  lemma SwapSymmetry(json: Json, old': seq<Record>, new': seq<Record>)
    ensures FullDiff(json, new', old') == Swapped(FullDiff(json, old', new'))
  {
    assert multiset(old') + multiset(new') == multiset(new') + multiset(old');
    assert Identities(old', new') == Identities(new', old');
    SwapOver(json, Sort(json.identity, multiset(Identities(old', new'))), old', new');
  }

  lemma {:induction false} PermuteOver(json: Json, ids: seq<Identity>, old': seq<Record>, new': seq<Record>,
                                       old2: seq<Record>, new2: seq<Record>)
    requires multiset(old') == multiset(old2) && multiset(new') == multiset(new2)
    ensures DiffOver(json, ids, old', new') == DiffOver(json, ids, old2, new2)
  {
    if ids != [] {
      PermuteOver(json, ids[..|ids| - 1], old', new', old2, new2);
      var id := ids[|ids| - 1];
      forall r
        ensures multiset(Of(id, old'))[r] == multiset(Of(id, old2))[r] &&
                multiset(Of(id, new'))[r] == multiset(Of(id, new2))[r]
      {
        OfCount(id, old', r); OfCount(id, old2, r); OfCount(id, new', r); OfCount(id, new2, r);
      }
      assert multiset(Of(id, old')) == multiset(Of(id, old2)) && multiset(Of(id, new')) == multiset(Of(id, new2));
    }
  }

  /** The order the rows come in does not matter. */
  lemma PermutationInvariance(json: Json, old': seq<Record>, new': seq<Record>, old2: seq<Record>, new2: seq<Record>)
    requires multiset(old') == multiset(old2) && multiset(new') == multiset(new2)
    ensures FullDiff(json, old', new') == FullDiff(json, old2, new2)
  {
    assert Identities(old', new') == Identities(old2, new2);
    PermuteOver(json, Sort(json.identity, multiset(Identities(old', new'))), old', new', old2, new2);
  }

  ghost predicate Within(d: Diff, ids: seq<Identity>) {
    (forall i | 0 <= i < |d.added| :: d.added[i].identity in ids) &&
    (forall i | 0 <= i < |d.removed| :: d.removed[i].identity in ids)
  }

  ghost predicate OneSided(d: Diff) {
    forall i, j | 0 <= i < |d.added| && 0 <= j < |d.removed| :: d.added[i].identity != d.removed[j].identity
  }

  /** A pair is one observation whose content changed. */
  ghost predicate RealChanges(d: Diff) {
    forall i | 0 <= i < |d.pairs| :: d.pairs[i].0.identity == d.pairs[i].1.identity && d.pairs[i].0 != d.pairs[i].1
  }

  lemma PairedOneSided(o: seq<Record>, n: seq<Record>, id: Identity)
    requires (forall i | 0 <= i < |o| :: o[i].identity == id && o[i] !in n) &&
             forall i | 0 <= i < |n| :: n[i].identity == id
    ensures var d := Paired(o, n); Within(d, [id]) && (d.added == [] || d.removed == []) && RealChanges(d)
  {
    var d := Paired(o, n);
    forall i | 0 <= i < |d.pairs| ensures d.pairs[i].0 != d.pairs[i].1 {
      assert d.pairs[i] == (o[i], n[i]) && n[i] in n;
    }
  }

  lemma AtOneSided(json: Json, id: Identity, old': seq<Record>, new': seq<Record>)
    ensures var d := DiffAt(json, id, old', new');
            Within(d, [id]) && (d.added == [] || d.removed == []) && RealChanges(d)
  {
    hide Of, Sort, Paired, Ordered;
    var o, n := multiset(Of(id, old')), multiset(Of(id, new'));
    var q, r := Sort(json.record, o - n), Sort(json.record, n - o);
    forall i | 0 <= i < |q| ensures q[i].identity == id && q[i] !in r {
      var x := q[i];
      assert x in multiset(q);
      OfCount(id, old', x);
      assert x in r ==> x in multiset(r);
    }
    forall i | 0 <= i < |r| ensures r[i].identity == id {
      var x := r[i];
      assert x in multiset(r);
      OfCount(id, new', x);
    }
    PairedOneSided(q, r, id);
  }

  lemma {:induction false} OverOneSided(json: Json, ids: seq<Identity>, old': seq<Record>, new': seq<Record>)
    requires Distinct(ids)
    ensures var d := DiffOver(json, ids, old', new'); Within(d, ids) && OneSided(d) && RealChanges(d)
  {
    if ids != [] {
      hide DiffAt;
      var before, id := ids[..|ids| - 1], ids[|ids| - 1];
      OverOneSided(json, before, old', new');
      AtOneSided(json, id, old', new');
      JoinOneSided(DiffOver(json, before, old', new'), DiffAt(json, id, old', new'), ids);
    }
  }

  lemma JoinOneSided(d: Diff, e: Diff, ids: seq<Identity>)
    requires ids != [] && Distinct(ids) && Within(d, ids[..|ids| - 1]) && OneSided(d) && RealChanges(d)
    requires Within(e, [ids[|ids| - 1]]) && (e.added == [] || e.removed == []) && RealChanges(e)
    ensures Within(Join(d, e), ids) && OneSided(Join(d, e)) && RealChanges(Join(d, e))
  {
    forall x ensures x in ids <==> x in ids[..|ids| - 1] || x == ids[|ids| - 1] { LastIdentity(ids, x); }
    LastIdentity(ids, ids[0]);
  }

  /** No identity is both added and removed, and every pair keeps its identity
      and changes its content. */
  lemma NeverBothSides(json: Json, old': seq<Record>, new': seq<Record>)
    ensures OneSided(FullDiff(json, old', new')) && RealChanges(FullDiff(json, old', new'))
  {
    SortedDistinct(json, Identities(old', new'));
    OverOneSided(json, Sort(json.identity, multiset(Identities(old', new'))), old', new');
  }

  // ---- Changed rows ----

  datatype Value = Text(text: Option<string>) | Amount(number: Option<Number>)

  /** A changed row: its identity, the fields that differ, and their values under
      `old_<field>` and `new_<field>`. */
  datatype ChangedRow = ChangedRow(identity: Identity, changedFields: Option<seq<string>>, values: map<string, Value>)

  /** Python's `!=`: numbers compare by value. */
  predicate Differs(a: Value, b: Value) {
    if a.Amount? && b.Amount? && a.number.Some? && b.number.Some?
    then a.number.value.Value() != b.number.value.Value() else a != b
  }

  function Field(name: string, a: Value, b: Value): (seq<string>, map<string, Value>) {
    if Differs(a, b) then ([name], map["old_" + name := a, "new_" + name := b]) else ([], map[])
  }

  function RowOf(pair: (Record, Record)): ChangedRow {
    var (old', new') := pair;
    var p := Field("properties", Text(Some(old'.properties)), Text(Some(new'.properties)));
    var o := Field("observer", Text(old'.observer), Text(new'.observer));
    var c := Field("confidence", Amount(old'.confidence), Amount(new'.confidence));
    ChangedRow(new'.identity, Some(p.0 + o.0 + c.0), p.1 + o.1 + c.1)
  }

  /** The two contents differ only in how one and the same number is written. */
  predicate OnlyRespelled(old': Record, new': Record) {
    old'.properties == new'.properties && old'.observer == new'.observer &&
    old'.confidence.Some? && new'.confidence.Some? &&
    old'.confidence.value.Value() == new'.confidence.value.Value()
  }

  datatype FieldChange = FieldChange(field: string, old': Value, new': Value)

  /** `changed_field_values`: refuses a row that does not keep the contract. */
  method ChangedFieldValues(row: ChangedRow) returns (r: Result<seq<FieldChange>, string>)
    ensures r.Ok? <==> Contract(row)
    ensures r.Ok? ==> |r.value| == |row.changedFields.value|
    ensures r.Ok? ==> forall i | 0 <= i < |r.value| :: r.value[i] == ChangeOf(row, row.changedFields.value[i])
  {
    hide Labelled, ChangeOf;
    if row.changedFields.None? || row.changedFields.value == [] {
      return Err("expected a non-empty changed_fields list");
    }
    var names := row.changedFields.value;
    var fields: seq<FieldChange> := [];
    var seen: set<string> := {};
    for i := 0 to |names|
      invariant |fields| == i && seen == Elements(names[..i])
      invariant forall j | 0 <= j < i :: Labelled(row, names[j]) && names[j] in seen
      invariant forall j, k | 0 <= j < k < i :: names[j] != names[k]
      invariant forall j | 0 <= j < i :: fields[j] == ChangeOf(row, names[j])
    {
      var name := names[i];
      Named(row, name);
      if name == "" { return Err("changed_fields entries must be non-empty strings"); }
      if name in seen {
        ghost var j :| 0 <= j < i && names[..i][j] == name;
        assert names[j] == names[i];
        return Err("changed_fields entries must be unique");
      }
      AppendElements(names[..i], name);
      assert names[..i + 1] == names[..i] + [name];
      seen := seen + {name};
      var change := ValuesOf(row, name);
      if change.None? { return Err("missing value"); }
      fields := fields + [change.value];
    }
    return Ok(fields);
  }

  /** One field's values, if the row has both. */
  method ValuesOf(row: ChangedRow, name: string) returns (r: Option<FieldChange>)
    requires name != ""
    ensures r.Some? <==> Labelled(row, name)
    ensures r.Some? ==> r.value == ChangeOf(row, name)
  {
    if "old_" + name !in row.values || "new_" + name !in row.values { return None; }
    return Some(FieldChange(name, row.values["old_" + name], row.values["new_" + name]));
  }

  lemma Named(row: ChangedRow, name: string)
    ensures Labelled(row, name) ==> name != ""
  {}

  predicate Labelled(row: ChangedRow, name: string) {
    name != "" && "old_" + name in row.values && "new_" + name in row.values
  }

  function ChangeOf(row: ChangedRow, name: string): FieldChange
    requires Labelled(row, name)
  {
    FieldChange(name, row.values["old_" + name], row.values["new_" + name])
  }

  ghost predicate Contract(row: ChangedRow) {
    row.changedFields.Some? && row.changedFields.value != [] &&
    (forall i | 0 <= i < |row.changedFields.value| :: Labelled(row, row.changedFields.value[i])) &&
    forall i, j | 0 <= i < j < |row.changedFields.value| :: row.changedFields.value[i] != row.changedFields.value[j]
  }

  /** Each field's values before and after, under its name. */
  ghost predicate Tells(row: ChangedRow, name: string, old': Value, new': Value) {
    "old_" + name in row.values && row.values["old_" + name] == old' &&
    "new_" + name in row.values && row.values["new_" + name] == new'
  }

  /** What a changed row says: the observation it is of, the fields that differ, in
      this order, and of each what it was and what it is. */
  lemma ChangedRowSays(old': Record, new': Record)
    ensures var row := RowOf((old', new'));
            var (p, o) := (old'.properties != new'.properties, old'.observer != new'.observer);
            var c := Differs(Amount(old'.confidence), Amount(new'.confidence));
            row.identity == new'.identity &&
            row.changedFields == Some((if p then ["properties"] else []) + (if o then ["observer"] else []) +
                                      (if c then ["confidence"] else [])) &&
            (p ==> Tells(row, "properties", Text(Some(old'.properties)), Text(Some(new'.properties)))) &&
            (o ==> Tells(row, "observer", Text(old'.observer), Text(new'.observer))) &&
            (c ==> Tells(row, "confidence", Amount(old'.confidence), Amount(new'.confidence)))
  {
    TextsDiffer(old', new');
    FieldKeys("properties", Text(Some(old'.properties)), Text(Some(new'.properties)));
    FieldKeys("observer", Text(old'.observer), Text(new'.observer));
    FieldKeys("confidence", Amount(old'.confidence), Amount(new'.confidence));
    assert "properties"[0] == 'p' && "observer"[0] == 'o' && "confidence"[0] == 'c';
    KeysApart("properties", "observer");
    KeysApart("properties", "confidence");
    KeysApart("observer", "confidence");
    hide Differs, Field;
  }

  lemma FieldKeys(name: string, a: Value, b: Value)
    ensures Field(name, a, b).0 == if Differs(a, b) then [name] else []
    ensures Field(name, a, b).1.Keys == if Differs(a, b) then {"old_" + name, "new_" + name} else {}
    ensures Differs(a, b) ==> Field(name, a, b).1["old_" + name] == a && Field(name, a, b).1["new_" + name] == b
  {
    assert ("old_" + name)[0] == 'o' && ("new_" + name)[0] == 'n';
  }

  lemma KeysApart(m: string, n: string)
    requires m != n
    ensures "old_" + m != "old_" + n && "new_" + m != "new_" + n
    ensures "old_" + m != "new_" + n && "new_" + m != "old_" + n
  {
    assert ("old_" + m)[4..] == m == ("new_" + m)[4..] && ("old_" + n)[4..] == n == ("new_" + n)[4..];
    assert ("old_" + m)[0] == 'o' == ("old_" + n)[0] && ("new_" + m)[0] == 'n' == ("new_" + n)[0];
  }

  /** Numbers differ by value: 1 and 1.0 do not. */
  lemma TextsDiffer(old': Record, new': Record)
    ensures Differs(Text(Some(old'.properties)), Text(Some(new'.properties))) <==> old'.properties != new'.properties
    ensures Differs(Text(old'.observer), Text(new'.observer)) <==> old'.observer != new'.observer
    ensures Differs(Amount(old'.confidence), Amount(new'.confidence)) <==>
              if old'.confidence.Some? && new'.confidence.Some?
              then old'.confidence.value.Value() != new'.confidence.value.Value()
              else old'.confidence != new'.confidence
  {
  }

  /** Two different contents of one observation make a row that keeps the
      contract, unless they only spell one number differently. */
  lemma ContractUnlessRespelled(old': Record, new': Record)
    requires old'.identity == new'.identity && old' != new'
    ensures Contract(RowOf((old', new'))) <==> !OnlyRespelled(old', new')
  {
    var names := RowOf((old', new')).changedFields.value;
    assert names == [] <==> old'.properties == new'.properties && old'.observer == new'.observer &&
                            !Differs(Amount(old'.confidence), Amount(new'.confidence));
  }

  /** What a REAL column gives back is never an integer, so the stored
      observations always keep the contract. */
  lemma RealColumnKeepsContract(old': Record, new': Record)
    requires old'.identity == new'.identity && old' != new'
    requires forall r | r in {old', new'} :: r.confidence.Some? ==> r.confidence.value.Float?
    ensures Contract(RowOf((old', new')))
  {
    ContractUnlessRespelled(old', new');
    hide Contract, RowOf;
    assert old' in {old', new'} && new' in {old', new'};
  }

  /** The respelling does happen: 1 becomes 1.0, the texts differ, the values do not. */
  lemma RespelledBreaksContract(id: Identity)
    ensures var old', new' :=
              Record(id, "json:null", None, Some(Whole(1))), Record(id, "json:null", None, Some(Float(1.0)));
            old' != new' && !Contract(RowOf((old', new')))
  {
    var old', new' := Record(id, "json:null", None, Some(Whole(1))), Record(id, "json:null", None, Some(Float(1.0)));
    ContractUnlessRespelled(old', new');
  }

  // ---- The algorithm ----

  type Buckets = map<Record, seq<Record>>

  function Size(groups: Buckets, r: Record): nat { if r in groups then |groups[r]| else 0 }

  /** Each bucket holds copies of one record. */
  ghost predicate Uniform(groups: Buckets) {
    forall r | r in groups :: forall k | 0 <= k < |groups[r]| :: groups[r][k] == r
  }

  ghost predicate Holds(groups: Buckets, m: multiset<Record>) {
    Uniform(groups) && forall r :: Size(groups, r) == m[r]
  }

  type Groups = map<Identity, seq<Record>>

  function Lookup(groups: Groups, id: Identity): seq<Record> { if id in groups then groups[id] else [] }

  ghost predicate Grouped(groups: Groups, q: seq<Record>) {
    forall id :: Lookup(groups, id) == Of(id, q) && (id in groups <==> Of(id, q) != [])
  }

  lemma GroupNext(groups: Groups, q: seq<Record>, r: Record, next: Groups)
    requires Grouped(groups, q) && next == groups[r.identity := Lookup(groups, r.identity) + [r]]
    ensures Grouped(next, q + [r])
  {
    assert (q + [r])[..|q|] == q;
    forall id ensures Lookup(next, id) == Of(id, q + [r]) && (id in next <==> Of(id, q + [r]) != []) {
      assert Lookup(groups, id) == Of(id, q);
    }
  }

  method GroupByIdentity(records: seq<Record>) returns (groups: Groups)
    ensures Grouped(groups, records)
  {
    hide Of;
    groups := map[];
    NoGroups();
    for n := 0 to |records|
      invariant Grouped(groups, records[..n])
    {
      var r := records[n];
      ghost var was := groups;
      groups := groups[r.identity := Lookup(groups, r.identity) + [r]];
      GroupNext(was, records[..n], r, groups);
      assert records[..n + 1] == records[..n] + [r];
    }
    assert records[..|records|] == records;
  }

  lemma NoGroups()
    ensures Grouped(map[], [])
  {}

  method GroupByContent(records: seq<Record>) returns (groups: Buckets)
    ensures Holds(groups, multiset(records))
  {
    groups := map[];
    for n := 0 to |records|
      invariant Holds(groups, multiset(records[..n]))
    {
      var r := records[n];
      assert records[..n + 1] == records[..n] + [r];
      groups := groups[r := (if r in groups then groups[r] else []) + [r]];
    }
    assert records[..|records|] == records;
  }

  /** Equal content cancels one for one. */
  method Cancel(oldBy: Buckets, newBy: Buckets, ghost o: multiset<Record>, ghost n: multiset<Record>)
    returns (oldLeft: Buckets, newLeft: Buckets)
    requires Holds(oldBy, o) && Holds(newBy, n)
    ensures Holds(oldLeft, o - n) && Holds(newLeft, n - o)
  {
    oldLeft, newLeft := oldBy, newBy;
    var shared := oldBy.Keys * newBy.Keys;
    var rest := shared;
    while rest != {}
      invariant rest <= shared && oldLeft.Keys == oldBy.Keys && newLeft.Keys == newBy.Keys
      invariant Uniform(oldLeft) && Uniform(newLeft)
      invariant forall r :: Size(oldLeft, r) == if r in rest then o[r] else Surplus(o[r], n[r])
      invariant forall r :: Size(newLeft, r) == if r in rest then n[r] else Surplus(n[r], o[r])
      decreases rest
    {
      ghost var w := Pick(rest);
      var r :| r in rest;
      assert Size(oldLeft, r) == o[r] && Size(newLeft, r) == n[r];
      var matched := Min(|oldLeft[r]|, |newLeft[r]|);
      oldLeft, newLeft := oldLeft[r := oldLeft[r][matched..]], newLeft[r := newLeft[r][matched..]];
      rest := rest - {r};
    }
    forall r ensures Size(oldLeft, r) == (o - n)[r] && Size(newLeft, r) == (n - o)[r] {
      assert Size(oldBy, r) == o[r] && Size(newBy, r) == n[r];
    }
  }

  method Flatten(groups: Buckets, ghost m: multiset<Record>) returns (q: seq<Record>)
    requires Holds(groups, m)
    ensures multiset(q) == m
  {
    q := [];
    var rest := groups.Keys;
    while rest != {}
      invariant rest <= groups.Keys
      invariant forall r :: multiset(q)[r] == if r in rest then 0 else m[r]
      decreases rest
    {
      ghost var w := Pick(rest);
      var r :| r in rest;
      Copies(groups[r], r);
      assert Size(groups, r) == m[r];
      q := q + groups[r];
      rest := rest - {r};
    }
  }

  lemma {:induction false} Copies(q: seq<Record>, r: Record)
    requires forall k | 0 <= k < |q| :: q[k] == r
    ensures forall x :: multiset(q)[x] == if x == r then |q| else 0
  {
    if q != [] {
      Copies(q[..|q| - 1], r);
      assert q == q[..|q| - 1] + [q[|q| - 1]];
    }
  }

  method DiffIdentity(json: Json, id: Identity, olds: seq<Record>, news: seq<Record>, ghost old': seq<Record>,
                      ghost new': seq<Record>)
    returns (added: seq<Record>, removed: seq<Record>, changed: seq<ChangedRow>)
    requires json.Valid() && olds == Of(id, old') && news == Of(id, new')
    ensures added == DiffAt(json, id, old', new').added && removed == DiffAt(json, id, old', new').removed
    ensures changed == Rows(DiffAt(json, id, old', new').pairs)
  {
    hide Sort, Ordered, Holds, RowOf, Of, Rows, Injective, Zip;
    var oldBy := GroupByContent(olds);
    var newBy := GroupByContent(news);
    oldBy, newBy := Cancel(oldBy, newBy, multiset(olds), multiset(news));
    var oldRemaining := Flatten(oldBy, multiset(olds) - multiset(news));
    var newRemaining := Flatten(newBy, multiset(news) - multiset(olds));
    oldRemaining := SortBy(json.record, oldRemaining);
    newRemaining := SortBy(json.record, newRemaining);
    assert DiffAt(json, id, old', new') == Paired(oldRemaining, newRemaining);
    var paired := Min(|oldRemaining|, |newRemaining|);
    changed := [];
    NoRows(oldRemaining, newRemaining);
    for i := 0 to paired
      invariant changed == Rows(Zip(oldRemaining[..i], newRemaining[..i]))
    {
      RowsNext(oldRemaining, newRemaining, i);
      changed := changed + [RowOf((oldRemaining[i], newRemaining[i]))];
    }
    added, removed := newRemaining[paired..], oldRemaining[paired..];
  }

  lemma NoRows(o: seq<Record>, n: seq<Record>)
    ensures Rows(Zip(o[..0], n[..0])) == []
  {}

  lemma RowsNext(o: seq<Record>, n: seq<Record>, i: nat)
    requires i < |o| && i < |n|
    ensures Rows(Zip(o[..i + 1], n[..i + 1])) == Rows(Zip(o[..i], n[..i])) + [RowOf((o[i], n[i]))]
  {
    hide RowOf;
  }

  function Rows(pairs: seq<(Record, Record)>): seq<ChangedRow> {
    seq(|pairs|, i requires 0 <= i < |pairs| => RowOf(pairs[i]))
  }

  /** The diff over the first n identities, as the lists the loop has built. */
  ghost predicate Listed(d: Diff, added: seq<Record>, removed: seq<Record>, changed: seq<ChangedRow>) {
    added == d.added && removed == d.removed && changed == Rows(d.pairs)
  }

  lemma ListedNext(json: Json, ids: seq<Identity>, n: nat, old': seq<Record>, new': seq<Record>,
                   added: seq<Record>, removed: seq<Record>, changed: seq<ChangedRow>, a: seq<Record>, r: seq<Record>,
                   c: seq<ChangedRow>)
    requires n < |ids| && Listed(DiffOver(json, ids[..n], old', new'), added, removed, changed)
    requires Listed(DiffAt(json, ids[n], old', new'), a, r, c)
    ensures Listed(DiffOver(json, ids[..n + 1], old', new'), added + a, removed + r, changed + c)
  {
    hide DiffAt, Rows;
    assert ids[..n + 1][..n] == ids[..n];
    RowsJoin(DiffOver(json, ids[..n], old', new').pairs, DiffAt(json, ids[n], old', new').pairs);
  }

  /** `_diff_resolved_observations` computes the diff. */
  method DiffResolvedObservations(json: Json, old': seq<Record>, new': seq<Record>)
    returns (added: seq<Record>, removed: seq<Record>, changed: seq<ChangedRow>)
    requires json.Valid()
    ensures var d := FullDiff(json, old', new'); added == d.added && removed == d.removed && changed == Rows(d.pairs)
  {
    hide Sort, Ordered, DiffAt, Of, Injective, Identities, Grouped;
    var oldBy := GroupByIdentity(old');
    var newBy := GroupByIdentity(new');
    var keys := Enumerate(oldBy.Keys + newBy.Keys);
    KeysAreIdentities(old', new', oldBy, newBy);
    var ids := SortBy(json.identity, keys);
    added, removed, changed := [], [], [];
    for n := 0 to |ids|
      invariant Listed(DiffOver(json, ids[..n], old', new'), added, removed, changed)
    {
      var id := ids[n];
      GroupedAt(oldBy, old', id);
      GroupedAt(newBy, new', id);
      var a, r, c := DiffIdentity(json, id, Lookup(oldBy, id), Lookup(newBy, id), old', new');
      ListedNext(json, ids, n, old', new', added, removed, changed, a, r, c);
      added, removed, changed := added + a, removed + r, changed + c;
    }
    assert ids[..|ids|] == ids;
  }

  lemma GroupedAt(groups: Groups, q: seq<Record>, id: Identity)
    requires Grouped(groups, q)
    ensures Lookup(groups, id) == Of(id, q)
  {
    hide Of;
  }

  lemma RowsJoin(p: seq<(Record, Record)>, q: seq<(Record, Record)>)
    ensures Rows(p + q) == Rows(p) + Rows(q)
  {
    hide RowOf;
  }

  lemma {:induction false} OfMember(id: Identity, q: seq<Record>)
    ensures Of(id, q) != [] <==> exists r :: r in multiset(q) && r.identity == id
  {
    if q != [] {
      var (rest, last) := (q[..|q| - 1], q[|q| - 1]);
      OfMember(id, rest);
      OfLast(id, q);
      hide Of;
      if Of(id, rest) != [] {
        var r: Record :| r in multiset(rest) && r.identity == id;
        assert r in multiset(q);
      } else if last.identity == id {
        assert last in multiset(q);
      }
    }
  }

  lemma OfLast(id: Identity, q: seq<Record>)
    requires q != []
    ensures Of(id, q) != [] <==> Of(id, q[..|q| - 1]) != [] || q[|q| - 1].identity == id
    ensures multiset(q) == multiset(q[..|q| - 1]) + multiset{q[|q| - 1]}
  {
    assert q == q[..|q| - 1] + [q[|q| - 1]];
  }

  lemma KeysAreIdentities(old': seq<Record>, new': seq<Record>, oldBy: Groups, newBy: Groups)
    requires Grouped(oldBy, old') && Grouped(newBy, new')
    ensures oldBy.Keys + newBy.Keys == Identities(old', new')
  {
    hide Of;
    forall id ensures id in oldBy.Keys + newBy.Keys <==> id in Identities(old', new') {
      OfMember(id, old');
      OfMember(id, new');
      GroupedAt(oldBy, old', id);
      if id in oldBy.Keys + newBy.Keys {
        var r :| (r in multiset(old') || r in multiset(new')) && r.identity == id;
        assert r in multiset(old') + multiset(new');
      }
    }
  }
}
