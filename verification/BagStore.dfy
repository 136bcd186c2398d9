/** Atoms, bags, memberships and the append-only event log, as values: what each
    resolver decision makes of the database, and what every decision keeps. */
module BagStore {
  import opened Wrappers
  import opened Collections
  import opened IdSets
  import opened Matching

  datatype Atom = Atom(entityType: string, sourceKey: string, props: Props)

  datatype Bag = Bag(entityType: string, canonicalKey: Option<string>, atomCount: nat, score: Option<real>)

  datatype Kind = Create | Merge | MergeInto | Split | SplitFrom | Resolve

  /** One `resolution_event_log` row; `other` is the bag id inside its reason. */
  datatype Event = Event(kind: Kind, bag: int, atoms: seq<int>, other: Option<int>, reason: string,
                         confidence: Option<real>)

  type Member = (int, int)

  /** `members` holds (bag, atom) rows; `nextBag` is the AUTOINCREMENT counter. */
  datatype Db = Db(
    atoms: map<int, Atom>, bags: map<int, Bag>, members: set<Member>,
    events: seq<Event>, candidates: map<Pair, real>, nextBag: int)

  ghost function MembersOf(members: set<Member>, b: int): set<int> {
    set m | m in members && m.0 == b :: m.1
  }

  lemma MembersRows(members: set<Member>, b: int)
    ensures forall a :: a in MembersOf(members, b) <==> (b, a) in members
  {
    forall a | (b, a) in members ensures a in MembersOf(members, b) {
      var m := (b, a);
      assert m in members && m.0 == b && m.1 == a;
    }
  }

  // ---- Replaying the log ----

  type Belongs = map<int, int>

  ghost function Assign(belongs: Belongs, atoms: seq<int>, b: int): Belongs {
    belongs + map a | a in atoms :: b
  }

  /** What one event says about membership, read without looking at any table. */
  ghost function Apply(belongs: Belongs, e: Event): Belongs {
    match e.kind
    case Create => Assign(belongs, e.atoms, e.bag)
    case Merge => Assign(belongs, e.atoms, e.bag)
    case SplitFrom => Assign(belongs, e.atoms, e.bag)
    case Split => belongs - Elements(e.atoms)
    case MergeInto => belongs
    case Resolve => belongs
  }

  /** The log replayed from empty. */
  ghost function Replay(events: seq<Event>): Belongs {
    if events == [] then map[] else Apply(Replay(events[..|events| - 1]), events[|events| - 1])
  }

  lemma ReplayNext(events: seq<Event>, e: Event)
    ensures Replay(events + [e]) == Apply(Replay(events), e)
  {
    assert (events + [e])[..|events|] == events;
  }

  // ---- The invariant ----

  /** Replaying the log gives exactly the membership rows; so no atom is in two bags. */
  ghost predicate Replays(db: Db) {
    forall b, a :: (b, a) in db.members <==> a in Replay(db.events) && Replay(db.events)[a] == b
  }

  /** Rows point at existing bags and atoms of one entity type. */
  ghost predicate Homogeneous(db: Db) {
    forall b, a | (b, a) in db.members ::
      b in db.bags && a in db.atoms && db.atoms[a].entityType == db.bags[b].entityType
  }

  /** Ids are behind the counter and every stored count is the true one. */
  ghost predicate Counted(db: Db) {
    forall b | b in db.bags :: b < db.nextBag && db.bags[b].atomCount == |MembersOf(db.members, b)|
  }

  /** A bag that was merged into another is empty. */
  ghost predicate Retired(db: Db) {
    forall e | e in db.events :: e.bag in db.bags && (e.kind.MergeInto? ==> MembersOf(db.members, e.bag) == {})
  }

  ghost predicate Valid(db: Db) {
    Replays(db) && Homogeneous(db) && Counted(db) && Retired(db)
  }

  lemma AtMostOneBag(db: Db, a: int, b: int, c: int)
    requires Valid(db) && (b, a) in db.members && (c, a) in db.members
    ensures b == c
  {}

  // ---- Create ----

  ghost predicate Free(db: Db, a: int) { forall b :: (b, a) !in db.members }

  ghost predicate Baggable(db: Db, entityType: string, ids: seq<int>) {
    ids != [] && Distinct(ids) &&
    forall a | a in ids :: a in db.atoms && db.atoms[a].entityType == entityType && Free(db, a)
  }

  function Created(db: Db, entityType: string, ids: seq<int>, key: Option<string>): Db {
    var b := db.nextBag;
    db.(bags := db.bags[b := Bag(entityType, key, |ids|, None)],
        members := db.members + (set a | a in ids :: (b, a)),
        events := db.events + [Event(Create, b, ids, None, "initial bag creation", None)],
        nextBag := b + 1)
  }

  lemma CreatedRows(db: Db, entityType: string, ids: seq<int>, key: Option<string>)
    ensures forall b, a :: (b, a) in Created(db, entityType, ids, key).members <==>
                           (b, a) in db.members || (b == db.nextBag && a in ids)
  {}

  lemma CreatedReplays(db: Db, entityType: string, ids: seq<int>, key: Option<string>)
    requires Replays(db) && Baggable(db, entityType, ids)
    ensures Replays(Created(db, entityType, ids, key))
  {
    var after := Created(db, entityType, ids, key);
    ReplayNext(db.events, after.events[|db.events|]);
    CreatedRows(db, entityType, ids, key);
    hide Created, Replay;
    forall b, a ensures (b, a) in after.members <==> a in Replay(after.events) && Replay(after.events)[a] == b {
      if a in ids { assert Free(db, a); }
    }
  }

  lemma CreatedCounted(db: Db, entityType: string, ids: seq<int>, key: Option<string>)
    requires Homogeneous(db) && Counted(db) && Baggable(db, entityType, ids)
    ensures Counted(Created(db, entityType, ids, key))
    ensures forall c | c in db.bags ::
              MembersOf(Created(db, entityType, ids, key).members, c) == MembersOf(db.members, c)
    ensures MembersOf(Created(db, entityType, ids, key).members, db.nextBag) == Elements(ids)
  {
    var after := Created(db, entityType, ids, key);
    CreatedRows(db, entityType, ids, key);
    assert db.nextBag !in db.bags;
    forall c | c in after.bags
      ensures MembersOf(after.members, c) == if c == db.nextBag then Elements(ids) else MembersOf(db.members, c)
    {
      MembersRows(after.members, c);
      MembersRows(db.members, c);
      forall a ensures a in MembersOf(after.members, c) <==>
                       a in if c == db.nextBag then Elements(ids) else MembersOf(db.members, c)
      {
        assert a in Elements(ids) <==> a in ids;
      }
    }
    DistinctElements(ids);
  }

  lemma CreatedValid(db: Db, entityType: string, ids: seq<int>, key: Option<string>)
    requires Valid(db) && Baggable(db, entityType, ids)
    ensures Valid(Created(db, entityType, ids, key))
  {
    CreatedReplays(db, entityType, ids, key);
    CreatedCounted(db, entityType, ids, key);
    CreatedRows(db, entityType, ids, key);
    hide Replays, Counted, Replay, MembersOf;
  }

  // ---- Merge ----

  ghost function AtomsOf(members: set<Member>, bagIds: seq<int>): set<int> {
    set m | m in members && m.0 in bagIds :: m.1
  }

  ghost predicate Mergeable(db: Db, bagIds: seq<int>) {
    |bagIds| >= 2 && Distinct(bagIds) &&
    bagIds[0] in db.bags &&
    (forall b | b in bagIds :: b in db.bags && db.bags[b].entityType == db.bags[bagIds[0]].entityType) &&
    forall b | b in bagIds :: MembersOf(db.members, b) != {}
  }

  /** One losing bag: its rows move to the survivor, the bag stays as an empty
      row, and the log says where it went. */
  function Absorbed(db: Db, survivor: int, loser: int, reason: string): Db {
    db.(members := (set m | m in db.members && m.0 != loser) +
                   (set m | m in db.members && m.0 == loser :: (survivor, m.1)),
        bags := if loser in db.bags then db.bags[loser := db.bags[loser].(atomCount := 0)] else db.bags,
        events := db.events + [Event(MergeInto, loser, [], Some(survivor), reason, None)])
  }

  function AbsorbAll(db: Db, survivor: int, losers: seq<int>, reason: string): Db
    decreases |losers|
  {
    if losers == [] then db
    else Absorbed(AbsorbAll(db, survivor, losers[..|losers| - 1], reason), survivor, losers[|losers| - 1], reason)
  }

  function Announced(db: Db, survivor: int, atoms: seq<int>, reason: string): Db {
    db.(events := db.events + [Event(Merge, survivor, atoms, None, reason, None)])
  }

  function Recounted(db: Db, b: int, total: nat): Db {
    if b in db.bags then db.(bags := db.bags[b := db.bags[b].(atomCount := total, score := None)]) else db
  }

  /** After the first losers are absorbed: whose rows moved, and that the log
      already tells the whole merge. */
  ghost predicate Merging(db: Db, now: Db, bagIds: seq<int>, n: nat) {
    1 <= n <= |bagIds| && now.atoms == db.atoms && now.nextBag == db.nextBag && now.candidates == db.candidates &&
    (forall b, a :: (b, a) in now.members <==>
       ((b, a) in db.members && b !in bagIds[1..n]) ||
       (b == bagIds[0] && exists c :: c in bagIds[1..n] && (c, a) in db.members)) &&
    now.bags.Keys == db.bags.Keys &&
    (forall b | b in db.bags :: now.bags[b] == if b in bagIds[1..n] then db.bags[b].(atomCount := 0) else db.bags[b]) &&
    |now.events| == |db.events| + n && db.events <= now.events &&
    Replay(now.events) == Assign(Replay(db.events), Ascend(AtomsOf(db.members, bagIds)), bagIds[0]) &&
    forall i | |db.events| <= i < |now.events| ::
      if i == |db.events| then now.events[i].kind == Merge && now.events[i].bag == bagIds[0]
      else now.events[i].kind == MergeInto && now.events[i].bag == bagIds[i - |db.events|]
  }

  lemma MergeStarts(db: Db, bagIds: seq<int>, reason: string)
    requires bagIds != []
    ensures Merging(db, Announced(db, bagIds[0], Ascend(AtomsOf(db.members, bagIds)), reason), bagIds, 1)
  {
    var now := Announced(db, bagIds[0], Ascend(AtomsOf(db.members, bagIds)), reason);
    ReplayNext(db.events, now.events[|db.events|]);
    assert bagIds[1..1] == [];
  }

  lemma MergeContinues(db: Db, now: Db, bagIds: seq<int>, n: nat, reason: string)
    requires Merging(db, now, bagIds, n) && n < |bagIds| && Distinct(bagIds) && bagIds[n] in db.bags
    ensures Merging(db, Absorbed(now, bagIds[0], bagIds[n], reason), bagIds, n + 1)
  {
    var loser := bagIds[n];
    var next := Absorbed(now, bagIds[0], loser, reason);
    ReplayNext(now.events, next.events[|now.events|]);
    assert bagIds[1..n + 1] == bagIds[1..n] + [loser];
    assert forall c :: c in bagIds[1..n + 1] <==> c in bagIds[1..n] || c == loser;
    assert loser !in bagIds[1..n] && loser != bagIds[0];
    hide Replay, Assign, Ascend, AtomsOf;
    MergeContinuesRows(db, now, bagIds, n, reason);
  }

  lemma MergeContinuesRows(db: Db, now: Db, bagIds: seq<int>, n: nat, reason: string)
    requires Merging(db, now, bagIds, n) && n < |bagIds| && Distinct(bagIds)
    ensures forall b, a :: (b, a) in Absorbed(now, bagIds[0], bagIds[n], reason).members <==>
              ((b, a) in db.members && b !in bagIds[1..n + 1]) ||
              (b == bagIds[0] && exists c :: c in bagIds[1..n + 1] && (c, a) in db.members)
  {
    hide Replay, Assign, Ascend, AtomsOf, Absorbed;
    var loser := bagIds[n];
    var next := Absorbed(now, bagIds[0], loser, reason);
    assert bagIds[1..n + 1] == bagIds[1..n] + [loser];
    assert forall c :: c in bagIds[1..n + 1] <==> c in bagIds[1..n] || c == loser;
    assert loser !in bagIds[1..n] && loser != bagIds[0];
    forall b, a ensures (b, a) in next.members <==>
        ((b, a) in db.members && b !in bagIds[1..n + 1]) ||
        (b == bagIds[0] && exists c :: c in bagIds[1..n + 1] && (c, a) in db.members)
    {
      AbsorbedRows(now, bagIds[0], loser, reason, b, a);
      if exists c :: c in bagIds[1..n + 1] && (c, a) in db.members {
        var c :| c in bagIds[1..n + 1] && (c, a) in db.members;
        if c == loser { assert (loser, a) in now.members; }
      }
    }
  }

  lemma AbsorbedRows(db: Db, survivor: int, loser: int, reason: string, b: int, a: int)
    requires survivor != loser
    ensures (b, a) in Absorbed(db, survivor, loser, reason).members <==>
            (b != loser && (b, a) in db.members) || (b == survivor && (loser, a) in db.members)
  {
    if (loser, a) in db.members && b == survivor {
      var m := (loser, a);
      assert (survivor, m.1) in Absorbed(db, survivor, loser, reason).members;
    }
  }

  lemma MergeMembers(db: Db, now: Db, bagIds: seq<int>)
    requires Mergeable(db, bagIds) && Merging(db, now, bagIds, |bagIds|)
    ensures MembersOf(now.members, bagIds[0]) == AtomsOf(db.members, bagIds)
    ensures forall b | b in db.bags && b != bagIds[0] ::
              MembersOf(now.members, b) == if b in bagIds then {} else MembersOf(db.members, b)
  {
    var s := bagIds[0];
    MergeLosers(bagIds);
    hide MembersOf, Mergeable;
    forall b | b in db.bags
      ensures MembersOf(now.members, b) ==
              if b == s then AtomsOf(db.members, bagIds) else if b in bagIds then {} else MembersOf(db.members, b)
    {
      MembersRows(now.members, b);
      MembersRows(db.members, b);
      AtomsRows(db.members, bagIds);
      forall a ensures a in MembersOf(now.members, b) <==>
                       a in if b == s then AtomsOf(db.members, bagIds)
                            else if b in bagIds then {} else MembersOf(db.members, b)
      {}
    }
    MembersRows(now.members, s);
    AtomsRows(db.members, bagIds);
    forall a ensures a in MembersOf(now.members, s) <==> a in AtomsOf(db.members, bagIds) {}
  }

  lemma MergeLosers(bagIds: seq<int>)
    requires bagIds != [] && Distinct(bagIds)
    ensures bagIds[1..|bagIds|] == bagIds[1..] && bagIds[0] !in bagIds[1..]
    ensures forall b :: b in bagIds <==> b == bagIds[0] || b in bagIds[1..]
  {}

  lemma AtomsRows(members: set<Member>, bagIds: seq<int>)
    ensures forall a :: a in AtomsOf(members, bagIds) <==> exists b :: b in bagIds && (b, a) in members
  {
    forall a ensures a in AtomsOf(members, bagIds) <==> exists b :: b in bagIds && (b, a) in members {
      if a in AtomsOf(members, bagIds) {
        var m :| m in members && m.0 in bagIds && m.1 == a;
        assert (m.0, a) in members;
      }
      if exists b :: b in bagIds && (b, a) in members {
        var b :| b in bagIds && (b, a) in members;
        var m := (b, a);
        assert m in members && m.0 in bagIds && m.1 == a;
      }
    }
  }

  lemma MergeEvents(db: Db, now: Db, bagIds: seq<int>, e: Event)
    requires Distinct(bagIds) && Merging(db, now, bagIds, |bagIds|) && e in now.events
    ensures e in db.events || (e.kind.Merge? && e.bag == bagIds[0]) ||
            (e.kind.MergeInto? && e.bag in bagIds && e.bag != bagIds[0])
  {
    var i :| 0 <= i < |now.events| && now.events[i] == e;
    hide Replay;
    if i < |db.events| {
      assert now.events[i] == db.events[i] && db.events[i] in db.events;
    } else if i > |db.events| {
      var k := i - |db.events|;
      assert e.bag == bagIds[k] && bagIds[k] in bagIds && bagIds[0] != bagIds[k];
    }
  }

  lemma MergeRetired(db: Db, now: Db, bagIds: seq<int>)
    requires Valid(db) && Mergeable(db, bagIds) && Merging(db, now, bagIds, |bagIds|)
    ensures Retired(now)
  {
    MergeMembers(db, now, bagIds);
    assert bagIds[0] in bagIds && now.bags.Keys == db.bags.Keys;
    forall e | e in now.events
      ensures e.bag in now.bags && (e.kind.MergeInto? ==> MembersOf(now.members, e.bag) == {})
    {
      MergeEvents(db, now, bagIds, e);
      hide MembersOf, Replay, Replays, Homogeneous, Counted, AtomsOf, Merging;
    }
  }

  lemma MergeReplays(db: Db, now: Db, bagIds: seq<int>)
    requires Valid(db) && Mergeable(db, bagIds) && Merging(db, now, bagIds, |bagIds|)
    ensures Replays(now)
  {
    var s := bagIds[0];
    MergeLosers(bagIds);
    AtomsRows(db.members, bagIds);
    hide AtomsOf, Mergeable, MembersOf, Counted, Retired, Homogeneous;
    forall b, a ensures (b, a) in now.members <==> a in Replay(now.events) && Replay(now.events)[a] == b {
      if a in AtomsOf(db.members, bagIds) {
        var c :| c in bagIds && (c, a) in db.members;
        if (b, a) in db.members { assert b == c; }
      }
    }
  }

  lemma MergeHomogeneous(db: Db, now: Db, bagIds: seq<int>)
    requires Valid(db) && Mergeable(db, bagIds) && Merging(db, now, bagIds, |bagIds|)
    ensures Homogeneous(now)
  {
    MergeLosers(bagIds);
    hide MembersOf, Counted, Retired, Replays, Replay;
    forall b, a | (b, a) in now.members
      ensures b in now.bags && a in now.atoms && now.atoms[a].entityType == now.bags[b].entityType
    {
      if (b, a) !in db.members {
        var c :| c in bagIds[1..|bagIds|] && (c, a) in db.members;
        assert c in bagIds && b == bagIds[0];
      }
    }
  }

  lemma MergeCounted(db: Db, now: Db, bagIds: seq<int>)
    requires Valid(db) && Mergeable(db, bagIds) && Merging(db, now, bagIds, |bagIds|)
    ensures Counted(Recounted(now, bagIds[0], |MembersOf(now.members, bagIds[0])|))
  {
    MergeMembers(db, now, bagIds);
    MergeLosers(bagIds);
    hide MembersOf, Replay, Replays, Homogeneous, Retired;
  }

  lemma MergeEnds(db: Db, now: Db, bagIds: seq<int>)
    requires Valid(db) && Mergeable(db, bagIds) && Merging(db, now, bagIds, |bagIds|)
    ensures MembersOf(now.members, bagIds[0]) == AtomsOf(db.members, bagIds)
    ensures Valid(Recounted(now, bagIds[0], |MembersOf(now.members, bagIds[0])|))
  {
    MergeReplays(db, now, bagIds);
    MergeHomogeneous(db, now, bagIds);
    MergeRetired(db, now, bagIds);
    MergeMembers(db, now, bagIds);
    MergeCounted(db, now, bagIds);
    RecountedKeeps(now, bagIds[0], |MembersOf(now.members, bagIds[0])|);
    hide *;
  }

  lemma RecountedKeeps(db: Db, b: int, total: nat)
    requires Replays(db) && Homogeneous(db) && Retired(db)
    ensures var after := Recounted(db, b, total);
            after.members == db.members && Replays(after) && Homogeneous(after) && Retired(after) &&
            (Counted(after) ==> Valid(after))
  {
    hide Replay, MembersOf;
  }

  // ---- Split ----

  ghost predicate Splittable(db: Db, b: int, ids: seq<int>) {
    b in db.bags && ids != [] && Distinct(ids) &&
    (forall a | a in ids :: (b, a) in db.members) && exists a :: a in MembersOf(db.members, b) && a !in ids
  }

  function SplitOff(db: Db, b: int, ids: seq<int>, remaining: nat, reason: string): Db
    requires b in db.bags
  {
    var newId := db.nextBag;
    db.(bags := db.bags[newId := Bag(db.bags[b].entityType, None, |ids|, None)]
                       [b := db.bags[b].(atomCount := remaining, score := None)],
        members := (set m | m in db.members && !(m.0 == b && m.1 in ids)) +
                   (set m | m in db.members && m.0 == b && m.1 in ids :: (newId, m.1)),
        events := db.events +
                  [Event(Split, b, ids, None, reason, None), Event(SplitFrom, newId, ids, Some(b), reason, None)],
        nextBag := newId + 1)
  }

  lemma SplitRows(db: Db, b: int, ids: seq<int>, remaining: nat, reason: string)
    requires Valid(db) && Splittable(db, b, ids)
    ensures forall c, a :: (c, a) in SplitOff(db, b, ids, remaining, reason).members <==>
                           if a in ids then c == db.nextBag else (c, a) in db.members
  {
    hide Replays, Replay, Counted, Retired, MembersOf;
    forall c, a ensures (c, a) in SplitOff(db, b, ids, remaining, reason).members <==>
                        if a in ids then c == db.nextBag else (c, a) in db.members
    {
      if a in ids {
        assert (b, a) in db.members;
        if (c, a) in db.members { AtMostOneBag(db, a, b, c); }
        var m := (b, a);
        assert (db.nextBag, m.1) in SplitOff(db, b, ids, remaining, reason).members;
      }
    }
  }

  lemma SplitReplays(db: Db, b: int, ids: seq<int>, remaining: nat, reason: string)
    requires Valid(db) && Splittable(db, b, ids)
    ensures Replays(SplitOff(db, b, ids, remaining, reason))
  {
    var after := SplitOff(db, b, ids, remaining, reason);
    var e0, e1 := after.events[|db.events|], after.events[|db.events| + 1];
    assert after.events == db.events + [e0] + [e1];
    ReplayNext(db.events, e0);
    ReplayNext(db.events + [e0], e1);
    SplitRows(db, b, ids, remaining, reason);
    assert Replay(after.events) == Assign(Replay(db.events) - Elements(ids), ids, db.nextBag);
    hide SplitOff, Replay, Counted, Retired, MembersOf, Homogeneous, Splittable;
    forall a ensures a in Elements(ids) <==> a in ids {}
  }

  lemma SplitMembers(db: Db, b: int, ids: seq<int>, remaining: nat, reason: string, c: int)
    requires Valid(db) && Splittable(db, b, ids)
    ensures MembersOf(SplitOff(db, b, ids, remaining, reason).members, c) ==
            if c == db.nextBag then Elements(ids)
            else if c == b then MembersOf(db.members, c) - Elements(ids) else MembersOf(db.members, c)
  {
    var after := SplitOff(db, b, ids, remaining, reason);
    SplitRows(db, b, ids, remaining, reason);
    MembersRows(after.members, c);
    MembersRows(db.members, c);
    hide SplitOff, Replay, Replays, Retired, MembersOf;
    assert db.nextBag !in db.bags;
    forall a ensures a in MembersOf(after.members, c) <==>
                     a in if c == db.nextBag then Elements(ids)
                          else if c == b then MembersOf(db.members, c) - Elements(ids) else MembersOf(db.members, c)
    {
      assert a in Elements(ids) <==> a in ids;
      if a in ids {
        assert (b, a) in db.members;
        if (c, a) in db.members { AtMostOneBag(db, a, b, c); }
      }
    }
  }

  lemma SplitHomogeneous(db: Db, b: int, ids: seq<int>, remaining: nat, reason: string)
    requires Valid(db) && Splittable(db, b, ids)
    ensures Homogeneous(SplitOff(db, b, ids, remaining, reason))
  {
    SplitRows(db, b, ids, remaining, reason);
    hide Replay, Replays, Retired, MembersOf;
    assert db.nextBag !in db.bags;
    assert forall a | a in ids :: (b, a) in db.members;
  }

  lemma SplitCounted(db: Db, b: int, ids: seq<int>, remaining: nat, reason: string)
    requires Valid(db) && Splittable(db, b, ids) && remaining == |MembersOf(db.members, b)| - |ids|
    ensures Counted(SplitOff(db, b, ids, remaining, reason))
  {
    var after := SplitOff(db, b, ids, remaining, reason);
    assert db.nextBag !in db.bags;
    DistinctElements(ids);
    SplitSizes(db, b, ids);
    forall c | c in after.bags
      ensures c < after.nextBag && after.bags[c].atomCount == |MembersOf(after.members, c)|
    {
      SplitMembers(db, b, ids, remaining, reason, c);
      hide Replays, Replay, Homogeneous, MembersOf, Retired, Splittable;
    }
  }

  lemma SplitRetired(db: Db, b: int, ids: seq<int>, remaining: nat, reason: string)
    requires Valid(db) && Splittable(db, b, ids)
    ensures Retired(SplitOff(db, b, ids, remaining, reason))
  {
    var after := SplitOff(db, b, ids, remaining, reason);
    assert db.nextBag !in db.bags;
    forall e | e in after.events
      ensures e.bag in after.bags && (e.kind.MergeInto? ==> MembersOf(after.members, e.bag) == {})
    {
      SplitMembers(db, b, ids, remaining, reason, e.bag);
      hide Replays, Replay, Homogeneous, MembersOf, Counted, Splittable;
      if e in db.events { assert e.bag in db.bags; }
    }
  }

  lemma SplitValid(db: Db, b: int, ids: seq<int>, remaining: nat, reason: string)
    requires Valid(db) && Splittable(db, b, ids) && remaining == |MembersOf(db.members, b)| - |ids|
    ensures Valid(SplitOff(db, b, ids, remaining, reason))
  {
    SplitReplays(db, b, ids, remaining, reason);
    SplitHomogeneous(db, b, ids, remaining, reason);
    SplitCounted(db, b, ids, remaining, reason);
    SplitRetired(db, b, ids, remaining, reason);
  }

  lemma SplitSizes(db: Db, b: int, ids: seq<int>)
    requires Splittable(db, b, ids)
    ensures |MembersOf(db.members, b) - Elements(ids)| == |MembersOf(db.members, b)| - |ids|
  {
    DistinctElements(ids);
    MembersRows(db.members, b);
    forall a | a in Elements(ids) ensures a in MembersOf(db.members, b) { assert a in ids; }
    assert MembersOf(db.members, b) == (MembersOf(db.members, b) - Elements(ids)) + Elements(ids);
  }

  // ---- Marks that leave membership alone ----

  function Scored(db: Db, b: int, score: Option<real>, ids: seq<int>): Db {
    if b in db.bags then
      db.(bags := db.bags[b := db.bags[b].(score := score)],
          events := db.events + [Event(Resolve, b, ids, None, "scored cluster", score)])
    else db
  }

  lemma ScoredValid(db: Db, b: int, score: Option<real>, ids: seq<int>)
    requires Valid(db) && b in db.bags
    ensures Valid(Scored(db, b, score, ids))
  {
    var after := Scored(db, b, score, ids);
    ReplayNext(db.events, after.events[|db.events|]);
  }
}
