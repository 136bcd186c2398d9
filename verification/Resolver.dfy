/** The entity resolver: bags created, merged and split by hand, or in bulk by
    exact key and by scored clustering, over the store of `BagStore`. */
module Resolver {
  import opened Wrappers
  import opened Collections
  import opened IdSets
  import opened Matching
  import opened Clustering
  import opened BagStore

  datatype Error =
    | EmptyAtoms | UnknownAtoms(ids: seq<int>) | MismatchedAtoms(ids: seq<int>) | AssignedAtoms(ids: seq<int>)
    | TooFewBags | UnknownBags(ids: seq<int>) | MixedTypes | EmptyBags(ids: seq<int>)
    | UnknownBag(id: int) | NotMembers(ids: seq<int>) | WholeBag
    | BadThreshold | UnknownType(name: string)

  /** `list(dict.fromkeys(ids))`: first occurrences, in order. */
  function Dedupe(ids: seq<int>): (r: seq<int>)
    ensures Distinct(r) && forall x :: x in r <==> x in ids
  {
    if ids == [] then []
    else
      var last := ids[|ids| - 1];
      var r := Dedupe(ids[..|ids| - 1]);
      assert ids == ids[..|ids| - 1] + [last];
      if last in r then r else r + [last]
  }

  function Where(ids: seq<int>, keep: int -> bool): (r: seq<int>)
    ensures forall x :: x in r <==> x in ids && keep(x)
  {
    if ids == [] then []
    else
      assert ids == [ids[0]] + ids[1..];
      (if keep(ids[0]) then [ids[0]] else []) + Where(ids[1..], keep)
  }

  ghost predicate Unresolved(db: Db, entityType: string, a: int) {
    a in db.atoms && db.atoms[a].entityType == entityType && Free(db, a)
  }

  ghost predicate SameBag(db: Db, x: int, y: int) {
    exists b :: (b, x) in db.members && (b, y) in db.members
  }

  // ---- Bagging groups of free atoms ----

  ghost predicate InGroup(first: int, groups: seq<set<int>>, b: int, a: int) {
    first <= b < first + |groups| && a in groups[b - first]
  }

  /** `after` is `before` with one new bag per group, and nothing else moved. */
  ghost predicate Bagged(before: Db, after: Db, groups: seq<set<int>>) {
    after.atoms == before.atoms && after.nextBag == before.nextBag + |groups| && before.events <= after.events &&
    (forall b, a :: (b, a) in after.members <==> (b, a) in before.members || InGroup(before.nextBag, groups, b, a)) &&
    (forall b :: b in after.bags <==> b in before.bags || before.nextBag <= b < after.nextBag) &&
    (forall b | b in before.bags :: after.bags[b] == before.bags[b])
  }

  lemma BaggedStart(before: Db, after: Db)
    requires after == before.(candidates := after.candidates)
    ensures Bagged(before, after, [])
    ensures Valid(before) ==> Valid(after)
  {
    hide Replay, MembersOf;
  }

  lemma BaggedNext(before: Db, mid: Db, groups: seq<set<int>>, entityType: string, ids: seq<int>, key: Option<string>)
    requires Bagged(before, mid, groups) && Counted(before)
    ensures Bagged(before, Created(mid, entityType, ids, key), groups + [Elements(ids)])
  {
    var after := Created(mid, entityType, ids, key);
    var more := groups + [Elements(ids)];
    CreatedRows(mid, entityType, ids, key);
    assert mid.nextBag !in before.bags;
    forall b, a ensures (b, a) in after.members <==> (b, a) in before.members || InGroup(before.nextBag, more, b, a) {
      assert a in Elements(ids) <==> a in ids;
    }
  }

  lemma BaggedScored(before: Db, mid: Db, groups: seq<set<int>>, b: int, score: Option<real>, ids: seq<int>)
    requires Bagged(before, mid, groups) && Counted(before) && b >= before.nextBag
    ensures Bagged(before, Scored(mid, b, score, ids), groups)
  {}

  lemma BaggedFree(before: Db, mid: Db, groups: seq<set<int>>, a: int)
    requires Bagged(before, mid, groups) && Free(before, a) && forall g | g in groups :: a !in g
    ensures Free(mid, a)
  {}

  /** Free atoms share a bag afterwards exactly when one group holds both. */
  lemma BaggedPartition(before: Db, after: Db, groups: seq<set<int>>, x: int, y: int)
    requires Bagged(before, after, groups) && Homogeneous(before) && Counted(before) && Free(before, x)
    ensures SameBag(after, x, y) <==> exists i :: 0 <= i < |groups| && x in groups[i] && y in groups[i]
  {
    if SameBag(after, x, y) {
      var b :| (b, x) in after.members && (b, y) in after.members;
      assert InGroup(before.nextBag, groups, b, x);
      assert b !in before.bags;
      assert InGroup(before.nextBag, groups, b, y);
      var i := b - before.nextBag;
      assert x in groups[i] && y in groups[i];
    }
    if exists i :: 0 <= i < |groups| && x in groups[i] && y in groups[i] {
      var i :| 0 <= i < |groups| && x in groups[i] && y in groups[i];
      var b := before.nextBag + i;
      assert InGroup(before.nextBag, groups, b, x) && InGroup(before.nextBag, groups, b, y);
      assert (b, x) in after.members && (b, y) in after.members;
    }
  }

  // ---- Scores of clusters ----

  datatype MatchEdge = MatchEdge(a: int, b: int, score: real)

  predicate Within(e: MatchEdge, component: set<int>) { e.a in component && e.b in component }

  /** The scores of the edges inside one component, in order. */
  function MemberScores(edges: seq<MatchEdge>, component: set<int>): (scores: seq<real>)
    ensures forall i | 0 <= i < |scores| :: exists e :: e in edges && e.score == scores[i]
    ensures (exists e :: e in edges && Within(e, component)) ==> scores != []
  {
    if edges == [] then []
    else
      assert edges == [edges[0]] + edges[1..];
      (if Within(edges[0], component) then [edges[0].score] else []) + MemberScores(edges[1..], component)
  }

  function Sum(scores: seq<real>): real {
    if scores == [] then 0.0 else scores[0] + Sum(scores[1..])
  }

  function Mean(scores: seq<real>): real
    requires scores != []
  {
    Sum(scores) / |scores| as real
  }

  lemma {:induction false} SumRange(scores: seq<real>, lo: real, hi: real)
    requires forall i | 0 <= i < |scores| :: lo <= scores[i] <= hi
    ensures lo * |scores| as real <= Sum(scores) <= hi * |scores| as real
  {
    if scores != [] {
      var n := |scores[1..]| as real;
      SumRange(scores[1..], lo, hi);
      assert |scores| as real == n + 1.0;
      assert lo * (n + 1.0) == lo * n + lo && hi * (n + 1.0) == hi * n + hi;
    }
  }

  lemma MeanRange(scores: seq<real>, lo: real, hi: real)
    requires scores != [] && forall i | 0 <= i < |scores| :: lo <= scores[i] <= hi
    ensures lo <= Mean(scores) <= hi
  {
    SumRange(scores, lo, hi);
    QuotientRange(Sum(scores), |scores| as real, lo, hi);
  }

  lemma QuotientRange(s: real, n: real, lo: real, hi: real)
    requires n > 0.0 && lo * n <= s <= hi * n
    ensures lo <= s / n <= hi
  {
    var m := s / n;
    assert m * n == s;
    assert m < lo ==> m * n < lo * n;
    assert m > hi ==> m * n > hi * n;
  }

  /** A cluster holds one of its own edges, so its mean score is defined. */
  lemma ClusterHasEdge(edges: seq<MatchEdge>, pairs: set<Edge>, component: set<int>)
    requires forall p :: p in pairs <==> exists e :: e in edges && (e.a, e.b) == p
    requires IsCluster(pairs, component)
    ensures exists e :: e in edges && Within(e, component)
  {
    var x := Pick(component);
    assert |{x}| == 1;
    assert component == (component - {x}) + {x};
    var y := Pick(component - {x});
    var p :| ChainFromTo(pairs, p, x, y);
    assert Joined(pairs, p[0], p[1]);
    LinkedEdge(pairs, p[0], p[1]);
    var pair := if (p[0], p[1]) in pairs then (p[0], p[1]) else (p[1], p[0]);
    var e :| e in edges && (e.a, e.b) == pair;
  }

  // ---- The resolver ----

  function DefaultKeys(entityType: string): Option<seq<string>> {
    if entityType == "binaries" then Some(["executable_name"])
    else if entityType == "daemons" then Some(["label"])
    else if entityType == "frameworks" then Some(["name"])
    else if entityType == "kexts" then Some(["bundle_id"])
    else if entityType == "files" then Some(["filename"])
    else None
  }

  /** The exact blocking key of `resolve`: the non-empty values, normalized. */
  function ExactKey(text: Text, props: Props, keys: seq<string>): Option<string> {
    var parts := ExactParts(text, props, keys);
    if parts == [] then None else Some(JoinParts(parts))
  }

  function ExactParts(text: Text, props: Props, keys: seq<string>): seq<string> {
    if keys == [] then []
    else (if keys[0] in props && props[keys[0]] != "" then [text.Normalize(props[keys[0]])] else []) +
         ExactParts(text, props, keys[1..])
  }

  function Blockables(db: Db, text: Text, fts: map<int, seq<int>>, entityType: string,
                      keys: seq<string>): map<int, Blockable>
  {
    map a | a in db.atoms && db.atoms[a].entityType == entityType ::
      Blockable(BucketKey(text, db.atoms[a].props, keys), if a in fts then fts[a] else [])
  }

  /** Candidate pairs with both ends unresolved. */
  ghost predicate Candidate(db: Db, text: Text, fts: map<int, seq<int>>, entityType: string, keys: seq<string>,
                            p: Pair)
  {
    Comparable(Blockables(db, text, fts, entityType, keys), p.0, p.1) &&
    Unresolved(db, entityType, p.0) && Unresolved(db, entityType, p.1)
  }

  ghost function PairScore(db: Db, text: Text, rules: seq<FieldRule>, p: Pair): real {
    if p.0 in db.atoms && p.1 in db.atoms
    then Score(text, rules, db.atoms[p.0].props, db.atoms[p.1].props) else 0.0
  }

  /** The edge list holds each candidate scoring at least the threshold, once,
      with its score. */
  ghost predicate AreMatches(db: Db, text: Text, rules: seq<FieldRule>, cands: set<Pair>, threshold: real,
                             edges: seq<MatchEdge>)
  {
    (forall e | e in edges :: IsMatchOf(db, text, rules, cands, threshold, e)) &&
    (forall p | p in cands && PairScore(db, text, rules, p) >= threshold :: HasEdge(edges, p)) &&
    forall i, j | 0 <= i < j < |edges| :: (edges[i].a, edges[i].b) != (edges[j].a, edges[j].b)
  }

  ghost predicate IsMatchOf(db: Db, text: Text, rules: seq<FieldRule>, cands: set<Pair>, threshold: real,
                            e: MatchEdge)
  {
    (e.a, e.b) in cands && e.score == PairScore(db, text, rules, (e.a, e.b)) && e.score >= threshold
  }

  ghost predicate HasEdge(edges: seq<MatchEdge>, p: Pair) {
    exists e :: e in edges && (e.a, e.b) == p
  }

  ghost function PairsOf(edges: seq<MatchEdge>): set<Edge> {
    set e | e in edges :: (e.a, e.b)
  }

  /** The bag made of one group: a cluster is keyed by its smallest member and
      scored by the mean of its own match edges, a lone atom is neither. */
  ghost predicate BagFor(db: Db, edges: seq<MatchEdge>, group: set<int>, bag: Bag) {
    bag.atomCount == |group| &&
    if |group| >= 2 then
      Least(group) in db.atoms && bag.canonicalKey == Some(db.atoms[Least(group)].sourceKey) &&
      MemberScores(edges, group) != [] && bag.score == Some(Mean(MemberScores(edges, group)))
    else bag.canonicalKey == None && bag.score == None
  }

  function RulesFor(entityType: string): (rules: seq<FieldRule>)
    ensures Positive(rules)
  {
    if ScoringSpec(entityType).Some? then ScoringSpec(entityType).value else []
  }

  function BlockKeys(entityType: string, keys: seq<string>): seq<string> {
    if keys == [] && DefaultKeys(entityType).Some? then DefaultKeys(entityType).value else keys
  }

  ghost function CandidateSet(db: Db, text: Text, fts: map<int, seq<int>>, entityType: string,
                              keys: seq<string>): set<Pair>
  {
    set a, b | a in db.atoms && b in db.atoms && Candidate(db, text, fts, entityType, keys, (a, b)) :: (a, b)
  }

  ghost predicate BagsFor(before: Db, after: Db, edges: seq<MatchEdge>, groups: seq<set<int>>) {
    forall i | 0 <= i < |groups| ::
      before.nextBag + i in after.bags && BagFor(before, edges, groups[i], after.bags[before.nextBag + i])
  }

  /** Everything a successful `resolve_scored` did. */
  ghost predicate Resolved(before: Db, after: Db, text: Text, fts: map<int, seq<int>>, entityType: string,
                           keys: seq<string>,
                           threshold: real, edges: seq<MatchEdge>, groups: seq<set<int>>, clusters: nat) {
    Bagged(before, after, groups) && BagsFor(before, after, edges, groups) &&
    ScoredGroups(before, entityType, edges, groups, clusters) &&
    AreMatches(before, text, RulesFor(entityType), CandidateSet(before, text, fts, entityType, keys), threshold, edges)
  }

  function Singles(ids: seq<int>): seq<set<int>> {
    seq(|ids|, i requires 0 <= i < |ids| => {ids[i]})
  }

  /** Clusters first, then every other unresolved atom alone. */
  ghost predicate ScoredGroups(db: Db, entityType: string, edges: seq<MatchEdge>, groups: seq<set<int>>,
                               clusters: nat)
  {
    clusters <= |groups| && IsClusters(PairsOf(edges), groups[..clusters]) &&
    (forall i | clusters <= i < |groups| :: |groups[i]| == 1) &&
    (forall i, j | 0 <= i < j < |groups| :: groups[i] !! groups[j]) &&
    forall a :: Unresolved(db, entityType, a) <==> exists i :: 0 <= i < |groups| && a in groups[i]
  }

  /** Every candidate has a row afterwards; a row that was there stays, and a new one
      is a candidate's with its score. */
  ghost predicate Recorded(before: Db, after: Db, text: Text, rules: seq<FieldRule>, cands: set<Pair>) {
    after.candidates.Keys == before.candidates.Keys + cands &&
    forall p | p in after.candidates ::
      after.candidates[p] ==
      if p in before.candidates then before.candidates[p] else PairScore(before, text, rules, p)
  }

  /** What the log says of one group: its bag and, for a cluster, the confidence. */
  ghost function GroupLog(edges: seq<MatchEdge>, group: set<int>, b: int): seq<Event> {
    var ids := Ascend(group);
    var scores := MemberScores(edges, group);
    [Event(Create, b, ids, None, "initial bag creation", None)] +
    if |group| >= 2 && scores != [] then [Event(Resolve, b, ids, None, "scored cluster", Some(Mean(scores)))] else []
  }

  ghost function GroupLogs(edges: seq<MatchEdge>, groups: seq<set<int>>, first: int): seq<Event> {
    if groups == [] then []
    else
      var n := |groups| - 1;
      GroupLogs(edges, groups[..n], first) + GroupLog(edges, groups[n], first + n)
  }

  // ---- What one call writes ----

  /** One more bag of exactly these atoms, unscored, and one event that says so. */
  ghost predicate Opened(before: Db, after: Db, entityType: string, ids: seq<int>, key: Option<string>) {
    var b := before.nextBag;
    after.atoms == before.atoms && after.candidates == before.candidates && after.nextBag == b + 1 &&
    after.bags == before.bags[b := Bag(entityType, key, |ids|, None)] &&
    (forall c, a :: (c, a) in after.members <==> (c, a) in before.members || (c == b && a in ids)) &&
    after.events == before.events + [Event(Create, b, ids, None, "initial bag creation", None)]
  }

  lemma CreatedOpens(db: Db, entityType: string, ids: seq<int>, key: Option<string>)
    ensures Opened(db, Created(db, entityType, ids, key), entityType, ids, key)
  {
    CreatedRows(db, entityType, ids, key);
  }

  /** The atoms have left b for one more bag of its kind, both unscored; two events
      say where they went and where they came from. */
  ghost predicate Parted(before: Db, after: Db, b: int, ids: seq<int>, reason: string)
    requires b in before.bags
  {
    var c := before.nextBag;
    after.atoms == before.atoms && after.candidates == before.candidates && after.nextBag == c + 1 &&
    after.bags.Keys == before.bags.Keys + {c} &&
    (forall d | d in before.bags && d != b :: after.bags[d] == before.bags[d]) &&
    after.bags[c] == Bag(before.bags[b].entityType, None, |ids|, None) &&
    after.bags[b] == before.bags[b].(atomCount := |MembersOf(after.members, b)|, score := None) &&
    (forall d, a :: (d, a) in after.members <==> if a in ids then d == c else (d, a) in before.members) &&
    after.events == before.events +
      [Event(Split, b, ids, None, reason, None), Event(SplitFrom, c, ids, Some(b), reason, None)]
  }

  lemma SplitParts(db: Db, b: int, ids: seq<int>, reason: string)
    requires Valid(db) && Splittable(db, b, ids) && |ids| <= |MembersOf(db.members, b)|
    ensures Parted(db, SplitOff(db, b, ids, |MembersOf(db.members, b)| - |ids|, reason), b, ids, reason)
  {
    var remaining := |MembersOf(db.members, b)| - |ids|;
    var after := SplitOff(db, b, ids, remaining, reason);
    SplitRows(db, b, ids, remaining, reason);
    SplitValid(db, b, ids, remaining, reason);
    assert Counted(after);
    hide Replay, Replays, Retired, Homogeneous, MembersOf, Splittable;
  }

  /** Which bag each absorbed bag went into, in order. */
  function Transfers(survivor: int, losers: seq<int>, reason: string): seq<Event> {
    seq(|losers|, i requires 0 <= i < |losers| => Event(MergeInto, losers[i], [], Some(survivor), reason, None))
  }

  lemma TransferNext(db: Db, ids: seq<int>, n: nat, reason: string)
    requires 1 <= n < |ids|
    ensures Absorbed(db, ids[0], ids[n], reason).events ==
            db.events + [Event(MergeInto, ids[n], [], Some(ids[0]), reason, None)]
    ensures Transfers(ids[0], ids[1..n + 1], reason) ==
            Transfers(ids[0], ids[1..n], reason) + [Event(MergeInto, ids[n], [], Some(ids[0]), reason, None)]
  {
    hide MembersOf;
  }

  // ---- Refusals ----

  /** Which problem `create_bag` reports, and the atoms it names: the first of its
      checks that fails. */
  ghost predicate CreateError(db: Db, entityType: string, ids: seq<int>, e: Error) {
    match e
    case EmptyAtoms => ids == []
    case UnknownAtoms(q) => q != [] && forall a :: a in q <==> a in ids && a !in db.atoms
    case MismatchedAtoms(q) =>
      (forall a | a in ids :: a in db.atoms) && q != [] &&
      forall a :: a in q <==> a in ids && a in db.atoms && db.atoms[a].entityType != entityType
    case AssignedAtoms(q) =>
      (forall a | a in ids :: a in db.atoms && db.atoms[a].entityType == entityType) && q != [] &&
      Increasing(q) && forall a :: a in q <==> a in ids && !Free(db, a)
    case _ => false
  }

  ghost predicate MergeError(db: Db, ids: seq<int>, e: Error) {
    match e
    case TooFewBags => |ids| < 2
    case UnknownBags(q) => |ids| >= 2 && q != [] && forall b :: b in q <==> b in ids && b !in db.bags
    case MixedTypes =>
      (forall b | b in ids :: b in db.bags) &&
      exists b, c :: b in ids && c in ids && b in db.bags && c in db.bags &&
                     db.bags[b].entityType != db.bags[c].entityType
    case EmptyBags(q) =>
      (forall b, c | b in ids && c in ids ::
         b in db.bags && c in db.bags && db.bags[b].entityType == db.bags[c].entityType) &&
      q != [] && forall b :: b in q <==> b in ids && MembersOf(db.members, b) == {}
    case _ => false
  }

  ghost predicate SplitError(db: Db, b: int, ids: seq<int>, e: Error) {
    match e
    case EmptyAtoms => ids == []
    case UnknownBag(c) => ids != [] && c == b && b !in db.bags
    case NotMembers(q) =>
      b in db.bags && q != [] && Increasing(q) && forall a :: a in q <==> a in ids && (b, a) !in db.members
    case WholeBag =>
      ids != [] && b in db.bags && forall a :: a in ids <==> (b, a) in db.members
    case _ => false
  }

  lemma CreateProblems(db: Db, entityType: string, ids: seq<int>)
    ensures ids == [] ==> CreateError(db, entityType, ids, EmptyAtoms) && !Baggable(db, entityType, ids)
  {}

  lemma UnknownProblem(db: Db, entityType: string, ids: seq<int>, q: seq<int>)
    requires q != [] && forall a :: a in q <==> a in ids && a !in db.atoms
    ensures CreateError(db, entityType, ids, UnknownAtoms(q)) && !Baggable(db, entityType, ids)
  {
    var w := q[0];
    assert w in q;
  }

  lemma MismatchedProblem(db: Db, entityType: string, ids: seq<int>, q: seq<int>)
    requires (forall a | a in ids :: a in db.atoms) && q != []
    requires forall a :: a in q <==> a in ids && a in db.atoms && db.atoms[a].entityType != entityType
    ensures CreateError(db, entityType, ids, MismatchedAtoms(q)) && !Baggable(db, entityType, ids)
  {
    var w := q[0];
    assert w in q;
  }

  lemma TakenAtoms(db: Db, ids: seq<int>, taken: set<int>)
    requires taken == set m | m in db.members && m.1 in ids :: m.1
    ensures forall a :: a in taken <==> a in ids && !Free(db, a)
  {
    forall a ensures a in taken <==> a in ids && !Free(db, a) {
      if a in ids && !Free(db, a) {
        var b :| (b, a) in db.members;
        var m := (b, a);
        assert m in db.members && m.1 in ids;
      }
      if a in taken {
        var m :| m in db.members && m.1 in ids && m.1 == a;
        var b := m.0;
        assert (b, a) in db.members;
      }
    }
  }

  lemma AssignedProblem(db: Db, entityType: string, ids: seq<int>, taken: set<int>, q: seq<int>)
    requires forall a | a in ids :: a in db.atoms && db.atoms[a].entityType == entityType
    requires taken != {} && q == Ascend(taken) && forall a :: a in taken <==> a in ids && !Free(db, a)
    ensures CreateError(db, entityType, ids, AssignedAtoms(q)) && !Baggable(db, entityType, ids)
  {
    hide Free;
    var w := Pick(taken);
    assert w in q;
  }

  lemma NoProblem(db: Db, entityType: string, ids: seq<int>)
    requires ids != [] && Distinct(ids) && forall a | a in ids :: a in db.atoms && db.atoms[a].entityType == entityType
    requires forall a | a in ids :: Free(db, a)
    ensures Baggable(db, entityType, ids)
  {
    hide Free;
  }

  lemma SplitProblems(db: Db, b: int, ids: seq<int>)
    ensures ids == [] ==> SplitError(db, b, ids, EmptyAtoms) && !Splittable(db, b, ids)
    ensures ids != [] && b !in db.bags ==> SplitError(db, b, ids, UnknownBag(b)) && !Splittable(db, b, ids)
  {
    hide MembersOf;
  }

  lemma NotMembersProblem(db: Db, b: int, ids: seq<int>, q: seq<int>)
    requires b in db.bags &&
             var missing := Elements(ids) - MembersOf(db.members, b); missing != {} && q == Ascend(missing)
    ensures SplitError(db, b, ids, NotMembers(q)) && !Splittable(db, b, ids)
  {
    MembersRows(db.members, b);
    var w := Pick(Elements(ids) - MembersOf(db.members, b));
    hide MembersOf;
    assert w in q;
  }

  lemma WholeProblem(db: Db, b: int, ids: seq<int>)
    requires ids != [] && Distinct(ids) && b in db.bags && Elements(ids) <= MembersOf(db.members, b)
    ensures if Elements(ids) == MembersOf(db.members, b)
            then SplitError(db, b, ids, WholeBag) && !Splittable(db, b, ids) else Splittable(db, b, ids)
  {
    MembersRows(db.members, b);
    hide MembersOf;
    forall a ensures a in Elements(ids) <==> a in ids {}
    if Elements(ids) != MembersOf(db.members, b) {
      var rest := MembersOf(db.members, b) - Elements(ids);
      assert MembersOf(db.members, b) == Elements(ids) + rest;
      var w := Pick(rest);
      assert w in MembersOf(db.members, b) && w !in ids;
    }
  }

  lemma SplitIds(db: Db, b: int, ids: seq<int>, remaining: nat, reason: string)
    requires b in db.bags
    ensures SplitOff(db, b, ids, remaining, reason).nextBag == db.nextBag + 1
  {}

  lemma TooFew(db: Db, ids: seq<int>)
    ensures |ids| < 2 ==> MergeError(db, ids, TooFewBags) && !Mergeable(db, ids)
  {}

  lemma UnknownBagsProblem(db: Db, ids: seq<int>, q: seq<int>)
    requires |ids| >= 2 && q != [] && forall b :: b in q <==> b in ids && b !in db.bags
    ensures MergeError(db, ids, UnknownBags(q)) && !Mergeable(db, ids)
  {
    hide MembersOf;
    var w := q[0];
    assert w in q;
  }

  lemma MixedProblem(db: Db, ids: seq<int>, first: int, q: seq<int>)
    requires ids != [] && first == ids[0] && first in ids && (forall b | b in ids :: b in db.bags) && q != []
    requires forall b | b in q :: b in ids && b in db.bags && db.bags[b].entityType != db.bags[first].entityType
    ensures MergeError(db, ids, MixedTypes) && !Mergeable(db, ids)
  {
    hide MembersOf;
    var w := q[0];
    assert w in q;
  }

  lemma EmptyProblem(db: Db, ids: seq<int>, first: int, q: seq<int>)
    requires ids != [] && first == ids[0] && q != []
    requires first in db.bags &&
             forall b | b in ids :: b in db.bags && db.bags[b].entityType == db.bags[first].entityType
    requires forall b :: b in q <==> b in ids && MembersOf(db.members, b) == {}
    ensures MergeError(db, ids, EmptyBags(q)) && !Mergeable(db, ids)
  {
    hide MembersOf;
    var w := q[0];
    assert w in q;
  }

  lemma NoMergeProblem(db: Db, ids: seq<int>, first: int)
    requires |ids| >= 2 && Distinct(ids) && first == ids[0]
    requires first in db.bags &&
             forall b | b in ids :: b in db.bags && db.bags[b].entityType == db.bags[first].entityType
    requires forall b | b in ids :: MembersOf(db.members, b) != {}
    ensures Mergeable(db, ids)
  {
    hide MembersOf;
  }

  lemma EmptyRows(members: set<Member>, b: int)
    ensures (forall m | m in members :: m.0 != b) <==> MembersOf(members, b) == {}
  {
    MembersRows(members, b);
    if m :| m in members && m.0 == b {
      var a := m.1;
      assert (b, a) in members;
      assert a in MembersOf(members, b);
    } else {
      NoMembers(members, b);
    }
  }

  datatype Summary = Summary(clusters: nat, merges: nat, atomsResolved: nat)

  class EntityResolver {
    const text: Text
    /** What the full-text index answers for each atom's source key. */
    const fts: map<int, seq<int>>
    var db: Db

    constructor (db: Db, text: Text, fts: map<int, seq<int>>)
      ensures this.db == db && this.text == text && this.fts == fts
    {
      this.db, this.text, this.fts := db, text, fts;
    }

    /** `create_bag`. */
    method CreateBag(entityType: string, atomIds: seq<int>, key: Option<string>) returns (r: Result<int, Error>)
      requires Valid(db)
      modifies this
      ensures Valid(db)
      ensures r.Ok? <==> Baggable(old(db), entityType, Dedupe(atomIds))
      ensures r.Ok? ==> r.value == old(db.nextBag) && db == Created(old(db), entityType, Dedupe(atomIds), key)
      ensures r.Ok? ==> Opened(old(db), db, entityType, Dedupe(atomIds), key)
      ensures r.Err? ==> db == old(db) && CreateError(db, entityType, Dedupe(atomIds), r.error)
    {
      hide Replay, Replays, Counted, Retired, MembersOf, Dedupe, CreateError, Opened;
      var ids := Dedupe(atomIds);
      var now := db;
      var problem := CheckCreate(entityType, ids);
      if problem.Some? { return Err(problem.value); }
      CreatedValid(db, entityType, ids, key);
      CreatedOpens(db, entityType, ids, key);
      db := Created(db, entityType, ids, key);
      return Ok(now.nextBag);
    }

    /** The checks of `create_bag`, in order. */
    method CheckCreate(entityType: string, ids: seq<int>) returns (problem: Option<Error>)
      requires Distinct(ids)
      ensures problem.None? <==> Baggable(db, entityType, ids)
      ensures problem.Some? ==> CreateError(db, entityType, ids, problem.value)
    {
      hide CreateError, Baggable;
      var now := db;
      CreateProblems(now, entityType, ids);
      if ids == [] { return Some(EmptyAtoms); }
      var missing := Where(ids, a => a !in now.atoms);
      if missing != [] {
        UnknownProblem(now, entityType, ids, missing);
        return Some(UnknownAtoms(missing));
      }
      forall a | a in ids ensures a in now.atoms { assert a !in missing; }
      var mismatched := Where(ids, a => a in now.atoms && now.atoms[a].entityType != entityType);
      if mismatched != [] {
        MismatchedProblem(now, entityType, ids, mismatched);
        return Some(MismatchedAtoms(mismatched));
      }
      forall a | a in ids ensures now.atoms[a].entityType == entityType { assert a !in mismatched; }
      var taken := set m | m in now.members && m.1 in ids :: m.1;
      TakenAtoms(now, ids, taken);
      if taken != {} {
        var sorted := SortedIds(taken);
        AssignedProblem(now, entityType, ids, taken, sorted);
        return Some(AssignedAtoms(sorted));
      }
      NoProblem(now, entityType, ids);
      return None;
    }

    /** The checks of `merge_bags`, in order. */
    method CheckMerge(ids: seq<int>) returns (problem: Option<Error>)
      requires Distinct(ids)
      ensures problem.None? <==> Mergeable(db, ids)
      ensures problem.Some? ==> MergeError(db, ids, problem.value)
    {
      hide MembersOf, MergeError, Mergeable;
      var start := db;
      TooFew(start, ids);
      if |ids| < 2 { return Some(TooFewBags); }
      var missing := Where(ids, b => b !in start.bags);
      if missing != [] {
        UnknownBagsProblem(start, ids, missing);
        return Some(UnknownBags(missing));
      }
      forall b | b in ids ensures b in start.bags { assert b !in missing; }
      ghost var first := ids[0];
      assert first in ids;
      var others := Where(ids, b => b in start.bags && start.bags[b].entityType != start.bags[ids[0]].entityType);
      if others != [] {
        MixedProblem(start, ids, first, others);
        return Some(MixedTypes);
      }
      forall b | b in ids ensures start.bags[b].entityType == start.bags[first].entityType { assert b !in others; }
      var empty := Where(ids, b => forall m | m in start.members :: m.0 != b);
      forall b ensures b in empty <==> b in ids && MembersOf(start.members, b) == {} { EmptyRows(start.members, b); }
      if empty != [] {
        EmptyProblem(start, ids, first, empty);
        return Some(EmptyBags(empty));
      }
      NoMergeProblem(start, ids, first);
      return None;
    }

    /** `merge_bags`: the first bag survives with every atom of all of them. */
    method MergeBags(bagIds: seq<int>, reason: string) returns (r: Result<int, Error>)
      requires Valid(db)
      modifies this
      ensures Valid(db)
      ensures r.Ok? <==> Mergeable(old(db), Dedupe(bagIds))
      ensures r.Ok? ==> r.value == Dedupe(bagIds)[0] && IsMerge(old(db), db, Dedupe(bagIds))
      ensures r.Ok? ==>
                var ids := Dedupe(bagIds);
                ids != [] && db.events == old(db.events) +
                  [Event(Merge, ids[0], Ascend(AtomsOf(old(db.members), ids)), None, reason, None)] +
                  Transfers(ids[0], ids[1..], reason)
      ensures r.Err? ==> db == old(db) && MergeError(db, Dedupe(bagIds), r.error)
    {
      hide Replay, Replays, Counted, Retired, Homogeneous, MembersOf, Dedupe, AtomsOf, Merging;
      var ids := Dedupe(bagIds);
      var start := db;
      var problem := CheckMerge(ids);
      if problem.Some? { return Err(problem.value); }
      var all := set m | m in start.members && m.0 in ids :: m.1;
      assert all == AtomsOf(start.members, ids) by { SameAtoms(start.members, ids); }
      var sorted := SortedIds(all);
      MergeStarts(start, ids, reason);
      db := Announced(db, ids[0], sorted, reason);
      AbsorbLosers(ids, sorted, reason, start);
      MergeEnds(start, db, ids);
      var survivors := set m | m in db.members && m.0 == ids[0] :: m.1;
      assert survivors == MembersOf(db.members, ids[0]) by { SameMembers(db.members, ids[0]); }
      MergeResult(start, db, ids);
      db := Recounted(db, ids[0], |survivors|);
      return Ok(ids[0]);
    }

    /** The loop of `merge_bags` over the bags that go. */
    method AbsorbLosers(ids: seq<int>, ghost sorted: seq<int>, reason: string, ghost start: Db)
      requires |ids| >= 2 && Distinct(ids) && forall b | b in ids :: b in start.bags
      requires Merging(start, db, ids, 1)
      requires db.events == start.events + [Event(Merge, ids[0], sorted, None, reason, None)]
      modifies this
      ensures Merging(start, db, ids, |ids|)
      ensures db.events == start.events + [Event(Merge, ids[0], sorted, None, reason, None)] +
                           Transfers(ids[0], ids[1..], reason)
    {
      hide Merging, Absorbed;
      var n := 1;
      while n < |ids|
        invariant 1 <= n <= |ids| && Merging(start, db, ids, n)
        invariant db.events == start.events + [Event(Merge, ids[0], sorted, None, reason, None)] +
                               Transfers(ids[0], ids[1..n], reason)
      {
        ghost var loser := ids[n];
        assert loser in ids && loser in start.bags;
        MergeContinues(start, db, ids, n, reason);
        TransferNext(db, ids, n, reason);
        db := Absorbed(db, ids[0], ids[n], reason);
        n := n + 1;
      }
      assert ids[1..|ids|] == ids[1..];
    }

    /** `split_bag`: some atoms leave for a new bag, at least one stays. */
    method SplitBag(b: int, atomIds: seq<int>, reason: string) returns (r: Result<int, Error>)
      requires Valid(db)
      modifies this
      ensures Valid(db)
      ensures r.Ok? <==> Splittable(old(db), b, Dedupe(atomIds))
      ensures r.Ok? ==> r.value == old(db.nextBag)
      ensures r.Ok? ==>
                (|Dedupe(atomIds)| <= |MembersOf(old(db.members), b)| &&
                 db == SplitOff(old(db), b, Dedupe(atomIds), |MembersOf(old(db.members), b)| - |Dedupe(atomIds)|,
                                reason))
      ensures r.Ok? ==> b in old(db.bags) && Parted(old(db), db, b, Dedupe(atomIds), reason)
      ensures r.Err? ==> db == old(db) && SplitError(db, b, Dedupe(atomIds), r.error)
    {
      hide Replay, Replays, Counted, Retired, Homogeneous, Dedupe, MembersOf, SplitError, Splittable, Parted, SplitOff;
      var ids := Dedupe(atomIds);
      var now := db;
      SplitProblems(now, b, ids);
      if ids == [] { return Err(EmptyAtoms); }
      if b !in now.bags { return Err(UnknownBag(b)); }
      var members := set m | m in now.members && m.0 == b :: m.1;
      SameMembers(now.members, b);
      var requested := set a | a in ids;
      assert requested == Elements(ids);
      if requested - members != {} {
        var sorted := SortedIds(requested - members);
        NotMembersProblem(now, b, ids, sorted);
        return Err(NotMembers(sorted));
      }
      forall a | a in requested ensures a in members { assert a !in requested - members; }
      WholeProblem(now, b, ids);
      if requested == members { return Err(WholeBag); }
      SplitSizes(now, b, ids);
      DistinctElements(ids);
      SubsetSize(requested, members);
      SplitValid(now, b, ids, |members| - |requested|, reason);
      SplitParts(now, b, ids, reason);
      db := SplitOff(db, b, ids, |members| - |requested|, reason);
      SplitIds(now, b, ids, |members| - |requested|, reason);
      return Ok(now.nextBag);
    }

    /** Atoms of a type in no bag, in whatever order the database lists them. */
    method UnresolvedAtoms(entityType: string) returns (ids: seq<int>)
      ensures Distinct(ids) && forall a :: a in ids <==> Unresolved(db, entityType, a)
    {
      var now := db;
      var found := set a |
        a in now.atoms && now.atoms[a].entityType == entityType && forall m | m in now.members :: m.1 != a;
      forall a ensures a in found <==> Unresolved(now, entityType, a) { FreeRows(now, a); }
      ids := Enumerate(found);
    }

    /** `resolve`: one bag per exact key, atoms without a key left alone. */
    method ResolveExact(entityType: string, keys: seq<string>)
      returns (merges: nat, atomsResolved: nat, ghost groups: seq<set<int>>)
      requires Valid(db)
      modifies this
      ensures Valid(db) && Bagged(old(db), db, groups)
      ensures KeyGroups(old(db), text, entityType, keys, groups)
      ensures merges == Larger(groups) && atomsResolved == Total(groups)
    {
      hide Replay, Replays, Retired, MembersOf, Homogeneous;
      var start := db;
      var order, clusters;
      ghost var ids;
      order, clusters, ids := GroupByKey(entityType, keys);
      merges, atomsResolved, groups := 0, 0, [];
      BaggedStart(start, start);
      for n := 0 to |order|
        invariant Valid(db) && Bagged(start, db, groups) && |groups| == n
        invariant forall i | 0 <= i < n :: order[i] in clusters && groups[i] == Elements(clusters[order[i]])
        invariant merges == Larger(groups) && atomsResolved == Total(groups)
      {
        ClusterBaggable(start, db, text, entityType, keys, ids, order, clusters, groups, n);
        var members := clusters[order[n]];
        GroupAppended(groups, Elements(members));
        var more := BagCluster(entityType, order[n], members, start, groups);
        groups := groups + [Elements(members)];
        if more { merges := merges + 1; }
        atomsResolved := atomsResolved + |members|;
      }
      ClustersAreKeyGroups(start, text, entityType, keys, ids, order, clusters, groups);
    }

    /** One cluster becomes one bag, named after its key when it has two atoms. */
    method BagCluster(entityType: string, key: string, members: seq<int>, ghost start: Db, ghost groups: seq<set<int>>)
      returns (many: bool)
      requires Valid(db) && Bagged(start, db, groups) && Counted(start)
      requires Distinct(members) && Baggable(db, entityType, Dedupe(members)) &&
               Elements(Dedupe(members)) == Elements(members)
      modifies this
      ensures Valid(db) && Bagged(start, db, groups + [Elements(members)])
      ensures many <==> |Elements(members)| >= 2
      ensures |Elements(members)| == |members|
    {
      hide Replay, Replays, Retired, MembersOf, Homogeneous, Dedupe, Bagged;
      DistinctElements(members);
      many := |members| >= 2;
      BaggedNext(start, db, groups, entityType, Dedupe(members), if many then Some(key) else None);
      var r;
      if many {
        r := CreateBag(entityType, members, Some(key));
      } else {
        r := CreateBag(entityType, members, None);
      }
      assert r.Ok?;
    }

    /** The dictionary from exact key to its unresolved atoms. */
    method GroupByKey(entityType: string, keys: seq<string>)
      returns (order: seq<string>, clusters: map<string, seq<int>>, ghost ids: seq<int>)
      ensures Clusters(db, text, keys, ids, order, clusters)
      ensures forall a :: a in ids <==> Unresolved(db, entityType, a)
    {
      var atoms := UnresolvedAtoms(entityType);
      ids := atoms;
      order, clusters := [], map[];
      for n := 0 to |atoms|
        invariant Clusters(db, text, keys, atoms[..n], order, clusters)
      {
        var a := atoms[n];
        assert a in atoms && Unresolved(db, entityType, a);
        var key := ExactKey(text, db.atoms[a].props, keys);
        assert a !in atoms[..n];
        ClusterNext(db, text, keys, atoms[..n], order, clusters, a);
        assert atoms[..n + 1] == atoms[..n] + [a];
        hide Clusters, ExactKey;
        if key.Some? {
          var before := if key.value in clusters then clusters[key.value] else [];
          if key.value !in clusters { order := order + [key.value]; }
          clusters := clusters[key.value := before + [a]];
        }
      }
      assert atoms[..|atoms|] == atoms;
    }

    /** `resolve_scored`: block, score, cluster, merge over the unresolved atoms. */
    method ResolveScored(entityType: string, keys: seq<string>, threshold: real)
      returns (r: Result<Summary, Error>, ghost edges: seq<MatchEdge>, ghost groups: seq<set<int>>)
      requires Valid(db)
      modifies this
      ensures Valid(db)
      ensures r.Err? ==> db == old(db)
      ensures r == Err(BadThreshold) <==> !(0.0 <= threshold <= 1.0)
      ensures r.Err? && 0.0 <= threshold <= 1.0 <==>
              0.0 <= threshold <= 1.0 && ScoringSpec(entityType).None? &&
              (exists a :: Unresolved(old(db), entityType, a)) &&
              (keys == [] || CandidateSet(old(db), text, fts, entityType, keys) != {})
      ensures r.Err? ==> r.error == BadThreshold || r.error == UnknownType(entityType)
      ensures r.Ok? ==>
                Resolved(old(db), db, text, fts, entityType, BlockKeys(entityType, keys), threshold, edges, groups,
                         r.value.clusters)
      ensures r.Ok? ==> r.value.merges == |edges| && r.value.atomsResolved == Total(groups)
      ensures r.Ok? ==> db.events == old(db.events) + GroupLogs(edges, groups, old(db.nextBag))
      ensures r.Ok? ==> Recorded(old(db), db, text, RulesFor(entityType),
                                 CandidateSet(old(db), text, fts, entityType, BlockKeys(entityType, keys)))
    {
      hide Replay, Replays, Retired, MembersOf, Homogeneous, Counted, Bagged, Resolved, Linked, Recorded, GroupLog;
      edges, groups := [], [];
      if !(0.0 <= threshold <= 1.0) { return Err(BadThreshold), edges, groups; }
      var start := db;
      var atoms := UnresolvedAtoms(entityType);
      if atoms == [] {
        NothingToResolve(start, text, fts, entityType, BlockKeys(entityType, keys), threshold);
        return Ok(Summary(0, 0, 0)), edges, groups;
      }
      ghost var some := atoms[0];
      assert some in atoms && Unresolved(start, entityType, some);
      if keys == [] && DefaultKeys(entityType).None? { return Err(UnknownType(entityType)), edges, groups; }
      var blockKeys := BlockKeys(entityType, keys);
      var cands := Candidates(entityType, blockKeys, atoms);
      if cands != {} && ScoringSpec(entityType).None? { return Err(UnknownType(entityType)), edges, groups; }
      var clusters, matches, bagged := ResolveMatches(entityType, blockKeys, threshold, cands, atoms);
      return Ok(Summary(clusters, |matches|, |atoms|)), matches, bagged;
    }

    /** Score, cluster and merge, once the candidates are known. */
    method ResolveMatches(entityType: string, keys: seq<string>, threshold: real, cands: set<Pair>, atoms: seq<int>)
      returns (clusters: nat, edges: seq<MatchEdge>, groups: seq<set<int>>)
      requires Valid(db) && Distinct(atoms) && forall a :: a in atoms <==> Unresolved(db, entityType, a)
      requires cands == CandidateSet(db, text, fts, entityType, keys)
      modifies this
      ensures Valid(db) && Resolved(old(db), db, text, fts, entityType, keys, threshold, edges, groups, clusters)
      ensures Total(groups) == |atoms|
      ensures db.events == old(db.events) + GroupLogs(edges, groups, old(db.nextBag))
      ensures Recorded(old(db), db, text, RulesFor(entityType), cands)
    {
      hide Replay, Replays, Retired, MembersOf, Homogeneous, Counted, Bagged, Linked, AreMatches, IsClusters,
           CandidateSet, Unresolved, BagsFor, ScoredGroups, GroupLog, GroupLogs;
      ghost var start := db;
      CandidateEnds(start, text, fts, entityType, keys);
      InAtoms(start, entityType, cands);
      edges := ScoreAll(RulesFor(entityType), cands, threshold);
      var components := Cluster(seq(|edges|, i requires 0 <= i < |edges| => (edges[i].a, edges[i].b)));
      EdgePairs(edges);
      BaggedStart(start, db);
      MatchEnds(start, text, RulesFor(entityType), cands, threshold, edges, entityType);
      BagComponents(entityType, edges, components, start);
      var clustered := set a | a in atoms && exists c :: c in components && a in c;
      var lone := SortedIds((set a | a in atoms) - clustered);
      BagLone(entityType, lone, start, edges, components);
      groups, clusters := components + Singles(lone), |components|;
      FinishScored(start, entityType, edges, components, atoms, lone);
    }

    /** Candidate pairs among the unresolved atoms. */
    method Candidates(entityType: string, keys: seq<string>, atoms: seq<int>) returns (cands: set<Pair>)
      requires forall a :: a in atoms <==> Unresolved(db, entityType, a)
      ensures cands == CandidateSet(db, text, fts, entityType, keys)
    {
      var blocks := Blockables(db, text, fts, entityType, keys);
      var order := Enumerate(blocks.Keys);
      forall a ensures a in Elements(order) <==> a in blocks.Keys { assert a in order <==> a in blocks.Keys; }
      assert Elements(order) == blocks.Keys;
      var pairs := CandidatePairs(blocks, order);
      cands := set p | p in pairs && p.0 in atoms && p.1 in atoms;
      hide Comparable, Blockables;
      forall a, b ensures (a, b) in cands <==> (a, b) in CandidateSet(db, text, fts, entityType, keys) {
        var p := (a, b);
        assert p in pairs <==> Comparable(blocks, p.0, p.1);
      }
      PairSets(cands, CandidateSet(db, text, fts, entityType, keys));
    }

    /** Score every candidate, record it once, and keep the ones that match. */
    method ScoreAll(rules: seq<FieldRule>, cands: set<Pair>, threshold: real) returns (edges: seq<MatchEdge>)
      requires forall a, b | (a, b) in cands :: a in db.atoms && b in db.atoms
      modifies this
      ensures db == old(db).(candidates := db.candidates)
      ensures AreMatches(old(db), text, rules, cands, threshold, edges)
      ensures Recorded(old(db), db, text, rules, cands)
    {
      edges := [];
      var rest := cands;
      ghost var start := db;
      while rest != {}
        invariant rest <= cands && db == start.(candidates := db.candidates)
        invariant AreMatches(start, text, rules, cands - rest, threshold, edges)
        invariant Recorded(start, db, text, rules, cands - rest)
        decreases rest
      {
        var p :| p in rest;
        var a, b := p.0, p.1;
        assert (a, b) in cands;
        var score, features := ScorePair(text, rules, db.atoms[a].props, db.atoms[b].props);
        NextMatch(start, text, rules, cands - rest, threshold, edges, MatchEdge(a, b, score));
        if p !in db.candidates { db := db.(candidates := db.candidates[p := score]); }
        if score >= threshold { edges := edges + [MatchEdge(a, b, score)]; }
        assert cands - (rest - {p}) == cands - rest + {(a, b)};
        rest := rest - {p};
      }
      assert cands - rest == cands;
    }

    /** One bag per component, in order, scored and logged. */
    method BagComponents(entityType: string, edges: seq<MatchEdge>, components: seq<set<int>>, ghost start: Db)
      requires Valid(db) && Valid(start) && Bagged(start, db, []) && db.events == start.events
      requires IsClusters(PairsOf(edges), components)
      requires forall e | e in edges :: Unresolved(start, entityType, e.a) && Unresolved(start, entityType, e.b)
      modifies this
      ensures Valid(db) && Bagged(start, db, components) && BagsFor(start, db, edges, components)
      ensures db.events == start.events + GroupLogs(edges, components, start.nextBag)
      ensures db.candidates == old(db.candidates)
    {
      assert components[..0] == [] && BagsFor(start, db, edges, []) && GroupLogs(edges, [], start.nextBag) == [];
      hide Valid, Counted, Bagged, BagsFor, IsClusters, Unresolved, GroupLogs, GroupLog;
      ValidCounts(start);
      for n := 0 to |components|
        invariant Valid(db) && Bagged(start, db, components[..n]) && BagsFor(start, db, edges, components[..n])
        invariant db.events == start.events + GroupLogs(edges, components[..n], start.nextBag)
        invariant db.candidates == old(db.candidates)
      {
        assert components[..n + 1] == components[..n] + [components[n]];
        ComponentFree(start, entityType, edges, components, n);
        BagComponent(entityType, edges, components[n], start, components[..n]);
      }
      assert components[..|components|] == components;
    }

    method BagComponent(entityType: string, edges: seq<MatchEdge>, component: set<int>, ghost start: Db,
                        ghost groups: seq<set<int>>)
      requires Valid(db) && Counted(start) && Bagged(start, db, groups) && BagsFor(start, db, edges, groups)
      requires |component| >= 2 && exists e :: e in edges && Within(e, component)
      requires forall a | a in component :: Unresolved(start, entityType, a) && forall g | g in groups :: a !in g
      requires db.events == start.events + GroupLogs(edges, groups, start.nextBag)
      modifies this
      ensures Valid(db) && Bagged(start, db, groups + [component]) && BagsFor(start, db, edges, groups + [component])
      ensures db.events == start.events + GroupLogs(edges, groups + [component], start.nextBag)
      ensures db.candidates == old(db.candidates)
    {
      hide Replay, Replays, Retired, MembersOf, Homogeneous, Counted, Bagged, Dedupe, GroupLogs, GroupLog;
      var scores := MemberScores(edges, component);
      var confidence := Mean(scores);
      var ordered := SortedIds(component);
      ghost var before := db;
      OrderedBaggable(start, db, entityType, component, groups);
      var key := SourceKeyOf(ordered, component, start, groups);
      var r := CreateBag(entityType, ordered, Some(key));
      assert r.Ok?;
      BaggedNext(start, before, groups, entityType, Dedupe(ordered), Some(key));
      BagsForNext(start, before, edges, groups, entityType, ordered, component, Some(key));
      ScoredValid(db, r.value, Some(confidence), ordered);
      BaggedScored(start, db, groups + [component], r.value, Some(confidence), ordered);
      ComponentLogged(start, before, edges, groups, entityType, component, Some(key));
      db := Scored(db, r.value, Some(confidence), ordered);
    }

    method SourceKeyOf(ordered: seq<int>, ghost component: set<int>, ghost start: Db, ghost groups: seq<set<int>>)
      returns (key: string)
      requires component != {} && ordered == Ascend(component) && Bagged(start, db, groups)
      requires forall a | a in component :: a in start.atoms
      ensures Least(component) in start.atoms && key == start.atoms[Least(component)].sourceKey
    {
      var first := ordered[0];
      assert first in ordered && first == Least(component);
      key := db.atoms[first].sourceKey;
    }

    /** Every other unresolved atom gets a bag of its own. */
    method BagLone(entityType: string, lone: seq<int>, ghost start: Db, ghost edges: seq<MatchEdge>,
                   ghost components: seq<set<int>>)
      requires Valid(db) && Counted(start) && Bagged(start, db, components) && BagsFor(start, db, edges, components)
      requires Increasing(lone)
      requires forall a | a in lone :: Unresolved(start, entityType, a) && forall g | g in components :: a !in g
      requires db.events == start.events + GroupLogs(edges, components, start.nextBag)
      modifies this
      ensures Valid(db) && Bagged(start, db, components + Singles(lone)) &&
              BagsFor(start, db, edges, components + Singles(lone))
      ensures db.events == start.events + GroupLogs(edges, components + Singles(lone), start.nextBag)
      ensures db.candidates == old(db.candidates)
    {
      hide Replay, Replays, Retired, MembersOf, Homogeneous, Counted, Bagged, Dedupe, GroupLogs, GroupLog;
      assert components + Singles(lone[..0]) == components;
      for n := 0 to |lone|
        invariant Valid(db) && Bagged(start, db, components + Singles(lone[..n]))
        invariant BagsFor(start, db, edges, components + Singles(lone[..n]))
        invariant db.events == start.events + GroupLogs(edges, components + Singles(lone[..n]), start.nextBag)
        invariant db.candidates == old(db.candidates)
      {
        ghost var groups := components + Singles(lone[..n]);
        ghost var before := db;
        LoneBaggable(start, db, entityType, lone, components, n);
        var r := CreateBag(entityType, [lone[n]], None);
        assert r.Ok?;
        BaggedNext(start, before, groups, entityType, Dedupe([lone[n]]), None);
        BagsForLone(start, before, edges, groups, entityType, lone[n]);
        LoneLogged(start, before, edges, groups, entityType, lone[n]);
        assert groups + [{lone[n]}] == components + Singles(lone[..n + 1]);
      }
      assert lone[..|lone|] == lone;
    }
  }

  // ---- Scored resolution, step by step ----

  lemma InAtoms(db: Db, entityType: string, cands: set<Pair>)
    requires forall a, b | (a, b) in cands :: Unresolved(db, entityType, a) && Unresolved(db, entityType, b)
    ensures forall a, b | (a, b) in cands :: a in db.atoms && b in db.atoms
  {}

  lemma PairSets(p: set<Pair>, q: set<Pair>)
    requires forall a, b :: (a, b) in p <==> (a, b) in q
    ensures p == q
  {
    forall x ensures x in p <==> x in q {
      var a, b := x.0, x.1;
      assert x == (a, b);
    }
  }

  lemma CandidateEnds(db: Db, text: Text, fts: map<int, seq<int>>, entityType: string, keys: seq<string>)
    ensures forall a, b | (a, b) in CandidateSet(db, text, fts, entityType, keys) ::
              Unresolved(db, entityType, a) && Unresolved(db, entityType, b)
  {
    hide Comparable;
  }

  lemma NothingToResolve(db: Db, text: Text, fts: map<int, seq<int>>, entityType: string, keys: seq<string>,
                         threshold: real)
    requires forall a :: !Unresolved(db, entityType, a)
    ensures Resolved(db, db, text, fts, entityType, keys, threshold, [], [], 0)
    ensures Recorded(db, db, text, RulesFor(entityType), CandidateSet(db, text, fts, entityType, keys))
  {
    BaggedStart(db, db);
    hide Bagged, Comparable;
    assert CandidateSet(db, text, fts, entityType, keys) == {};
    assert PairsOf([]) == {};
    forall x, y | x != y ensures !Linked({}, x, y) {
      if Linked({}, x, y) { LinkedPreserves({}, x, y, n => n); }
    }
  }

  lemma EdgePairs(edges: seq<MatchEdge>)
    ensures Elements(seq(|edges|, i requires 0 <= i < |edges| => (edges[i].a, edges[i].b))) == PairsOf(edges)
  {
    var q := seq(|edges|, i requires 0 <= i < |edges| => (edges[i].a, edges[i].b));
    forall p ensures p in Elements(q) <==> p in PairsOf(edges) {
      if p in q {
        var i :| 0 <= i < |q| && q[i] == p;
        assert edges[i] in edges;
      }
      if p in PairsOf(edges) {
        var e :| e in edges && (e.a, e.b) == p;
        var i :| 0 <= i < |edges| && edges[i] == e;
        assert q[i] == p;
      }
    }
  }

  lemma NextMatch(db: Db, text: Text, rules: seq<FieldRule>, seen: set<Pair>, threshold: real, edges: seq<MatchEdge>,
                  e: MatchEdge)
    requires AreMatches(db, text, rules, seen, threshold, edges)
    requires (e.a, e.b) !in seen && e.score == PairScore(db, text, rules, (e.a, e.b))
    ensures AreMatches(db, text, rules, seen + {(e.a, e.b)}, threshold,
                       if e.score >= threshold then edges + [e] else edges)
  {
    hide PairScore;
    var next := if e.score >= threshold then edges + [e] else edges;
    assert forall x | x in edges :: x in next;
    assert e in edges + [e];
    forall x | x in next ensures IsMatchOf(db, text, rules, seen + {(e.a, e.b)}, threshold, x) {
      if x in edges { assert IsMatchOf(db, text, rules, seen, threshold, x); }
    }
    forall p | p in seen + {(e.a, e.b)} && PairScore(db, text, rules, p) >= threshold ensures HasEdge(next, p) {
      if p in seen {
        assert HasEdge(edges, p);
        var x :| x in edges && (x.a, x.b) == p;
        assert x in next;
      } else {
        assert e in next;
      }
    }
    forall i, j | 0 <= i < j < |next| ensures (next[i].a, next[i].b) != (next[j].a, next[j].b) {
      if j == |edges| {
        assert edges[i] in edges && IsMatchOf(db, text, rules, seen, threshold, edges[i]);
      }
    }
  }

  lemma MatchEnds(db: Db, text: Text, rules: seq<FieldRule>, cands: set<Pair>, threshold: real, edges: seq<MatchEdge>,
                  entityType: string)
    requires AreMatches(db, text, rules, cands, threshold, edges)
    requires forall a, b | (a, b) in cands :: Unresolved(db, entityType, a) && Unresolved(db, entityType, b)
    ensures forall e | e in edges :: Unresolved(db, entityType, e.a) && Unresolved(db, entityType, e.b)
  {
    hide Unresolved, PairScore;
    forall e | e in edges ensures Unresolved(db, entityType, e.a) && Unresolved(db, entityType, e.b) {
      assert IsMatchOf(db, text, rules, cands, threshold, e);
    }
  }

  /** Every id of a cluster is the end of an edge inside it. */
  lemma MemberHasEdge(pairs: set<Edge>, component: set<int>, x: int) returns (y: int)
    requires IsCluster(pairs, component) && x in component
    ensures y in component && Joined(pairs, x, y)
  {
    assert |{x}| == 1;
    assert component == (component - {x}) + {x};
    var z := Pick(component - {x});
    var p :| ChainFromTo(pairs, p, x, z);
    y := p[1];
    assert Joined(pairs, p[0], p[1]);
    LinkedEdge(pairs, x, y);
  }

  lemma ComponentFree(start: Db, entityType: string, edges: seq<MatchEdge>, components: seq<set<int>>, n: nat)
    requires n < |components| && IsClusters(PairsOf(edges), components)
    requires forall e | e in edges :: Unresolved(start, entityType, e.a) && Unresolved(start, entityType, e.b)
    ensures |components[n]| >= 2 && exists e :: e in edges && Within(e, components[n])
    ensures forall a | a in components[n] ::
              Unresolved(start, entityType, a) && forall g | g in components[..n] :: a !in g
  {
    var c := components[n];
    hide Unresolved, Linked;
    assert c in components && IsCluster(PairsOf(edges), c);
    forall p ensures p in PairsOf(edges) <==> exists e :: e in edges && (e.a, e.b) == p {}
    ClusterHasEdge(edges, PairsOf(edges), c);
    forall a | a in c ensures Unresolved(start, entityType, a) && forall g | g in components[..n] :: a !in g {
      var y := MemberHasEdge(PairsOf(edges), c, a);
      var p := if (a, y) in PairsOf(edges) then (a, y) else (y, a);
      var e :| e in edges && (e.a, e.b) == p;
      assert Unresolved(start, entityType, e.a) && Unresolved(start, entityType, e.b);
      forall g | g in components[..n] ensures a !in g {
        var i :| 0 <= i < n && components[i] == g;
        ClustersDisjoint(PairsOf(edges), components, i, n, a);
      }
    }
  }

  lemma ClustersDisjoint(pairs: set<Edge>, components: seq<set<int>>, i: nat, j: nat, a: int)
    requires i < j < |components| && IsClusters(pairs, components)
    ensures !(a in components[i] && a in components[j])
  {
    assert components[i] in components && components[j] in components;
    if a in components[i] && a in components[j] { SameCluster(pairs, components[i], components[j], a); }
  }

  lemma SameCluster(pairs: set<Edge>, c: set<int>, d: set<int>, a: int)
    requires IsCluster(pairs, c) && IsCluster(pairs, d) && a in c && a in d
    ensures c == d
  {
    forall y ensures y in c <==> y in d {}
  }

  lemma DedupeIncreasing(q: seq<int>)
    requires Increasing(q)
    ensures Elements(Dedupe(q)) == Elements(q) && |Dedupe(q)| == |Elements(q)|
  {
    DistinctElements(Dedupe(q));
    forall a ensures a in Elements(Dedupe(q)) <==> a in Elements(q) {
      assert a in Dedupe(q) <==> a in q;
    }
  }

  lemma {:induction false} DedupeDistinct(q: seq<int>)
    requires Distinct(q)
    ensures Dedupe(q) == q
  {
    if q != [] {
      var init, last := q[..|q| - 1], q[|q| - 1];
      DedupeDistinct(init);
      assert q == init + [last] && last !in init;
    }
  }

  lemma LogNext(start: Db, edges: seq<MatchEdge>, groups: seq<set<int>>, group: set<int>, b: int)
    requires b == start.nextBag + |groups|
    ensures GroupLogs(edges, groups + [group], start.nextBag) ==
            GroupLogs(edges, groups, start.nextBag) + GroupLog(edges, group, b)
  {
    hide GroupLog;
    assert (groups + [group])[..|groups|] == groups;
  }

  lemma ComponentLogged(start: Db, before: Db, edges: seq<MatchEdge>, groups: seq<set<int>>, entityType: string,
                        component: set<int>, key: Option<string>)
    requires Bagged(start, before, groups) && |component| >= 2 && MemberScores(edges, component) != []
    requires before.events == start.events + GroupLogs(edges, groups, start.nextBag)
    ensures var ordered := Ascend(component);
            Scored(Created(before, entityType, Dedupe(ordered), key), before.nextBag,
                   Some(Mean(MemberScores(edges, component))), ordered).events ==
            start.events + GroupLogs(edges, groups + [component], start.nextBag)
  {
    hide GroupLogs, MemberScores, Mean, Dedupe, Ascend, Created, Scored, GroupLog;
    DedupeDistinct(Ascend(component));
    LogNext(start, edges, groups, component, before.nextBag);
    TwoEvents(before, edges, entityType, component, key);
  }

  lemma TwoEvents(db: Db, edges: seq<MatchEdge>, entityType: string, component: set<int>, key: Option<string>)
    requires |component| >= 2 && MemberScores(edges, component) != []
    ensures var ids := Ascend(component);
            Scored(Created(db, entityType, ids, key), db.nextBag, Some(Mean(MemberScores(edges, component))),
                   ids).events ==
            db.events + GroupLog(edges, component, db.nextBag)
  {
    hide MemberScores, Mean, Ascend;
  }

  lemma LoneLogged(start: Db, before: Db, edges: seq<MatchEdge>, groups: seq<set<int>>, entityType: string, a: int)
    requires Bagged(start, before, groups)
    requires before.events == start.events + GroupLogs(edges, groups, start.nextBag)
    ensures Created(before, entityType, Dedupe([a]), None).events ==
            start.events + GroupLogs(edges, groups + [{a}], start.nextBag)
  {
    hide GroupLogs, MemberScores, Mean, Dedupe;
    DedupeDistinct([a]);
    LogNext(start, edges, groups, {a}, before.nextBag);
    AscendOne(a);
  }

  lemma ValidCounts(db: Db)
    requires Valid(db)
    ensures Counted(db)
  {}

  lemma AscendOne(a: int)
    ensures Ascend({a}) == [a]
  {
    assert forall x :: x in [a] <==> x in {a};
    IncreasingUnique([a], Ascend({a}));
  }

  lemma OrderedBaggable(start: Db, now: Db, entityType: string, component: set<int>, groups: seq<set<int>>)
    requires Bagged(start, now, groups) && component != {}
    requires forall a | a in component :: Unresolved(start, entityType, a) && forall g | g in groups :: a !in g
    ensures Baggable(now, entityType, Dedupe(Ascend(component)))
    ensures Elements(Dedupe(Ascend(component))) == component
    ensures |Dedupe(Ascend(component))| == |component|
  {
    var q := Ascend(component);
    DedupeIncreasing(q);
    forall a ensures a in Elements(q) <==> a in component { assert a in q <==> a in component; }
    assert Elements(q) == component;
    var d := Dedupe(q);
    hide Dedupe;
    assert d != [];
    forall a | a in d ensures a in now.atoms && now.atoms[a].entityType == entityType && Free(now, a) {
      assert a in q && a in component;
      BaggedFree(start, now, groups, a);
    }
  }

  lemma BagsForNext(start: Db, before: Db, edges: seq<MatchEdge>, groups: seq<set<int>>, entityType: string,
                    ordered: seq<int>, component: set<int>, key: Option<string>)
    requires Bagged(start, before, groups) && BagsFor(start, before, edges, groups)
    requires |component| >= 2 && |Dedupe(ordered)| == |component|
    requires Least(component) in start.atoms && key == Some(start.atoms[Least(component)].sourceKey)
    requires MemberScores(edges, component) != []
    ensures var mid := Created(before, entityType, Dedupe(ordered), key);
            var score := Some(Mean(MemberScores(edges, component)));
            BagsFor(start, Scored(mid, before.nextBag, score, ordered), edges, groups + [component])
  {
    hide MemberScores, Mean, Dedupe;
    var mid := Created(before, entityType, Dedupe(ordered), key);
    var after := Scored(mid, before.nextBag, Some(Mean(MemberScores(edges, component))), ordered);
    var more := groups + [component];
    forall i | 0 <= i < |more|
      ensures start.nextBag + i in after.bags && BagFor(start, edges, more[i], after.bags[start.nextBag + i])
    {
      if i < |groups| {
        assert start.nextBag + i in before.bags && BagFor(start, edges, groups[i], before.bags[start.nextBag + i]);
        assert start.nextBag + i != before.nextBag;
      }
    }
  }

  lemma BagsForLone(start: Db, before: Db, edges: seq<MatchEdge>, groups: seq<set<int>>, entityType: string, a: int)
    requires Bagged(start, before, groups) && BagsFor(start, before, edges, groups)
    ensures |Dedupe([a])| == 1 && Elements(Dedupe([a])) == {a}
    ensures BagsFor(start, Created(before, entityType, Dedupe([a]), None), edges, groups + [{a}])
  {
    DedupeIncreasing([a]);
    assert Elements([a]) == {a};
    hide MemberScores, Mean, Dedupe;
    var after := Created(before, entityType, Dedupe([a]), None);
    var more := groups + [{a}];
    forall i | 0 <= i < |more|
      ensures start.nextBag + i in after.bags && BagFor(start, edges, more[i], after.bags[start.nextBag + i])
    {
      if i < |groups| {
        assert start.nextBag + i in before.bags && BagFor(start, edges, groups[i], before.bags[start.nextBag + i]);
        assert start.nextBag + i != before.nextBag;
      }
    }
  }

  lemma LoneBaggable(start: Db, now: Db, entityType: string, lone: seq<int>, components: seq<set<int>>, n: nat)
    requires n < |lone| && Increasing(lone) && Bagged(start, now, components + Singles(lone[..n]))
    requires forall a | a in lone :: Unresolved(start, entityType, a) && forall g | g in components :: a !in g
    ensures Baggable(now, entityType, Dedupe([lone[n]]))
  {
    var a := lone[n];
    assert a in lone && Unresolved(start, entityType, a);
    var groups := components + Singles(lone[..n]);
    forall g | g in groups ensures a !in g {
      var i :| 0 <= i < |groups| && groups[i] == g;
      if i < |components| { assert g in components; } else { assert g == {lone[i - |components|]}; }
    }
    BaggedFree(start, now, groups, a);
    var d := Dedupe([a]);
    DedupeIncreasing([a]);
    assert a in [a] && a in d;
    hide Dedupe, Free;
    forall x | x in d ensures x == a { assert x in [a]; }
  }

  lemma {:induction false} TotalSingles(groups: seq<set<int>>, lone: seq<int>)
    ensures Total(groups + Singles(lone)) == Total(groups) + |lone|
    decreases |lone|
  {
    if lone == [] {
      assert groups + Singles(lone) == groups;
    } else {
      var init := lone[..|lone| - 1];
      TotalSingles(groups, init);
      assert groups + Singles(lone) == groups + Singles(init) + [{lone[|lone| - 1]}];
      GroupAppended(groups + Singles(init), {lone[|lone| - 1]});
    }
  }

  ghost function UnionOf(groups: seq<set<int>>): set<int> {
    if groups == [] then {} else UnionOf(groups[..|groups| - 1]) + groups[|groups| - 1]
  }

  lemma {:induction false} TotalOfDisjoint(groups: seq<set<int>>)
    requires forall i, j | 0 <= i < j < |groups| :: groups[i] !! groups[j]
    ensures Total(groups) == |UnionOf(groups)|
    ensures forall a :: a in UnionOf(groups) <==> exists i :: 0 <= i < |groups| && a in groups[i]
    decreases |groups|
  {
    if groups != [] {
      var init, last := groups[..|groups| - 1], groups[|groups| - 1];
      TotalOfDisjoint(init);
      forall a ensures a in UnionOf(groups) <==> exists i :: 0 <= i < |groups| && a in groups[i] {
        if a in UnionOf(init) {
          var i :| 0 <= i < |init| && a in init[i];
          assert a in groups[i];
        }
        if a in last { assert a in groups[|groups| - 1]; }
        if exists i :: 0 <= i < |groups| && a in groups[i] {
          var i :| 0 <= i < |groups| && a in groups[i];
          if i < |init| { assert a in init[i]; }
        }
      }
      forall a | a in UnionOf(init) ensures a !in last {
        var i :| 0 <= i < |init| && a in init[i];
        assert groups[i] !! groups[|groups| - 1];
      }
      assert UnionOf(init) !! last;
    }
  }

  lemma GroupsDisjoint(pairs: set<Edge>, components: seq<set<int>>, lone: seq<int>)
    requires IsClusters(pairs, components) && Increasing(lone)
    requires forall a, c | a in lone && c in components :: a !in c
    ensures var groups := components + Singles(lone);
            (forall i, j | 0 <= i < j < |groups| :: groups[i] !! groups[j]) &&
            (forall i | |components| <= i < |groups| :: |groups[i]| == 1) && |groups| >= |components|
  {
    var groups := components + Singles(lone);
    hide IsClusters;
    forall i | |components| <= i < |groups| ensures |groups[i]| == 1 { assert groups[i] == {lone[i - |components|]}; }
    forall i, j | 0 <= i < j < |groups| ensures groups[i] !! groups[j] {
      forall a | a in groups[i] ensures a !in groups[j] {
        if j < |components| {
          ClustersDisjoint(pairs, components, i, j, a);
        } else {
          var b := lone[j - |components|];
          assert b in lone && groups[j] == {b};
          if i < |components| {
            assert components[i] in components;
          } else {
            assert groups[i] == {lone[i - |components|]};
          }
        }
      }
    }
  }

  lemma GroupsCover(components: seq<set<int>>, lone: seq<int>, a: int)
    ensures (exists i :: 0 <= i < |components + Singles(lone)| && a in (components + Singles(lone))[i]) <==>
            a in lone || exists c :: c in components && a in c
  {
    var groups := components + Singles(lone);
    if a in lone {
      var k :| 0 <= k < |lone| && lone[k] == a;
      assert groups[|components| + k] == {a};
    }
    if exists c :: c in components && a in c {
      var c :| c in components && a in c;
      var i :| 0 <= i < |components| && components[i] == c;
      assert groups[i] == c;
    }
    if exists i :: 0 <= i < |groups| && a in groups[i] {
      var i :| 0 <= i < |groups| && a in groups[i];
      if i < |components| {
        assert components[i] in components;
      } else {
        var b := lone[i - |components|];
        assert b in lone && groups[i] == {b};
      }
    }
  }

  lemma ClusteredUnresolved(start: Db, entityType: string, edges: seq<MatchEdge>, components: seq<set<int>>,
                            c: set<int>, a: int)
    requires IsClusters(PairsOf(edges), components) && c in components && a in c
    requires forall e | e in edges :: Unresolved(start, entityType, e.a) && Unresolved(start, entityType, e.b)
    ensures Unresolved(start, entityType, a)
  {
    var i :| 0 <= i < |components| && components[i] == c;
    ComponentFree(start, entityType, edges, components, i);
  }

  lemma FinishScored(start: Db, entityType: string, edges: seq<MatchEdge>, components: seq<set<int>>, atoms: seq<int>,
                     lone: seq<int>)
    requires IsClusters(PairsOf(edges), components) && Increasing(lone) && Distinct(atoms)
    requires forall e | e in edges :: Unresolved(start, entityType, e.a) && Unresolved(start, entityType, e.b)
    requires forall a :: a in atoms <==> Unresolved(start, entityType, a)
    requires forall a :: a in lone <==> a in atoms && forall c | c in components :: a !in c
    ensures ScoredGroups(start, entityType, edges, components + Singles(lone), |components|)
    ensures Total(components + Singles(lone)) == |atoms|
  {
    var groups := components + Singles(lone);
    hide Unresolved, Linked, IsClusters, Total, UnionOf, Singles, Distinct, SortedByMin, PairsOf;
    assert groups[..|components|] == components;
    GroupsDisjoint(PairsOf(edges), components, lone);
    forall a ensures Unresolved(start, entityType, a) <==> exists i :: 0 <= i < |groups| && a in groups[i] {
      GroupsCover(components, lone, a);
      forall c | c in components && a in c { ClusteredUnresolved(start, entityType, edges, components, c, a); }
    }
    TotalOfDisjoint(groups);
    forall a ensures a in UnionOf(groups) <==> a in Elements(atoms) { assert a in Elements(atoms) <==> a in atoms; }
    assert UnionOf(groups) == Elements(atoms);
    DistinctElements(atoms);
  }

  // ---- What resolution means ----

  /** Atoms that had a bag stay in it, and no older bag gains or loses an atom. */
  lemma Unmoved(before: Db, after: Db, groups: seq<set<int>>)
    requires Valid(before) && Bagged(before, after, groups)
    ensures forall b, a | b in before.bags :: (b, a) in after.members <==> (b, a) in before.members
    ensures forall b, a | (b, a) in before.members :: (b, a) in after.members
    ensures forall b | b in before.bags :: after.bags[b] == before.bags[b]
  {
    hide Replay, Replays, Retired, MembersOf;
  }

  /** `resolve`: unresolved atoms share a bag exactly when they have the same
      key, and stay unresolved exactly when they have none. */
  lemma ExactPartition(before: Db, after: Db, text: Text, entityType: string, keys: seq<string>, groups: seq<set<int>>,
                       x: int, y: int)
    requires Valid(before) && Bagged(before, after, groups) && KeyGroups(before, text, entityType, keys, groups)
    requires Unresolved(before, entityType, x) && Unresolved(before, entityType, y)
    ensures var kx, ky := ExactKey(text, before.atoms[x].props, keys), ExactKey(text, before.atoms[y].props, keys);
            (SameBag(after, x, y) <==> kx.Some? && kx == ky) && (Unresolved(after, entityType, x) <==> kx.None?)
  {
    hide Replay, Replays, Retired, MembersOf, ExactKey;
    BaggedPartition(before, after, groups, x, y);
    if ExactKey(text, before.atoms[x].props, keys).Some? {
      var i :| 0 <= i < |groups| && x in groups[i];
      assert InGroup(before.nextBag, groups, before.nextBag + i, x);
      assert (before.nextBag + i, x) in after.members;
    } else {
      forall b ensures (b, x) !in after.members {
        assert !InGroup(before.nextBag, groups, b, x);
      }
    }
  }

  /** `resolve_scored` leaves nothing unresolved... */
  lemma ScoredResolvesAll(before: Db, after: Db, text: Text, fts: map<int, seq<int>>, entityType: string,
                          keys: seq<string>,
                          threshold: real, edges: seq<MatchEdge>, groups: seq<set<int>>, clusters: nat)
    requires Resolved(before, after, text, fts, entityType, keys, threshold, edges, groups, clusters)
    ensures forall a :: !Unresolved(after, entityType, a)
  {
    hide AreMatches, BagsFor, IsClusters;
    forall a ensures !Unresolved(after, entityType, a) {
      if Unresolved(before, entityType, a) {
        var i :| 0 <= i < |groups| && a in groups[i];
        assert InGroup(before.nextBag, groups, before.nextBag + i, a);
        assert (before.nextBag + i, a) in after.members;
      } else if a in before.atoms && before.atoms[a].entityType == entityType {
        var b :| (b, a) in before.members;
        assert (b, a) in after.members;
      }
    }
  }

  /** ...puts two unresolved atoms in one bag exactly when a chain of candidate
      pairs scoring at least the threshold links them... */
  lemma ScoredPartition(before: Db, after: Db, text: Text, fts: map<int, seq<int>>, entityType: string,
                        keys: seq<string>,
                        threshold: real, edges: seq<MatchEdge>, groups: seq<set<int>>, clusters: nat, x: int, y: int)
    requires Valid(before) && Resolved(before, after, text, fts, entityType, keys, threshold, edges, groups, clusters)
    requires Unresolved(before, entityType, x) && Unresolved(before, entityType, y)
    ensures SameBag(after, x, y) <==> Linked(MatchPairs(before, text, fts, entityType, keys, threshold), x, y)
  {
    hide Replay, Replays, Retired, MembersOf, BagsFor, Linked, CandidateSet;
    BaggedPartition(before, after, groups, x, y);
    MatchPairsAreEdges(before, text, fts, entityType, keys, threshold, edges);
    var pairs := PairsOf(edges);
    LinkedSelf(pairs, x);
    if exists i :: 0 <= i < |groups| && x in groups[i] && y in groups[i] {
      var i :| 0 <= i < |groups| && x in groups[i] && y in groups[i];
      if i < clusters {
        assert groups[..clusters][i] in groups[..clusters];
        assert IsCluster(pairs, groups[i]);
      } else {
        var only := groups[i];
        if x != y { TwoMembers(only, x, y); }
      }
    }
    if Linked(pairs, x, y) {
      if x == y {
        var i :| 0 <= i < |groups| && x in groups[i];
      } else {
        assert InSome(groups[..clusters], x);
        var s :| s in groups[..clusters] && x in s;
        assert IsCluster(pairs, s) && y in s;
        var i :| 0 <= i < clusters && groups[..clusters][i] == s;
        assert x in groups[i] && y in groups[i];
      }
    }
  }

  /** The match relation itself, without reference to any run. */
  ghost function MatchPairs(db: Db, text: Text, fts: map<int, seq<int>>, entityType: string, keys: seq<string>,
                            threshold: real): set<Edge>
  {
    set p |
      p in CandidateSet(db, text, fts, entityType, keys) && PairScore(db, text, RulesFor(entityType), p) >= threshold
  }

  lemma MatchPairsAreEdges(db: Db, text: Text, fts: map<int, seq<int>>, entityType: string, keys: seq<string>,
                           threshold: real, edges: seq<MatchEdge>)
    requires AreMatches(db, text, RulesFor(entityType), CandidateSet(db, text, fts, entityType, keys), threshold, edges)
    ensures PairsOf(edges) == MatchPairs(db, text, fts, entityType, keys, threshold)
  {
    var cands := CandidateSet(db, text, fts, entityType, keys);
    hide CandidateSet, PairScore;
    forall p ensures p in PairsOf(edges) <==> p in MatchPairs(db, text, fts, entityType, keys, threshold) {
      if p in PairsOf(edges) {
        var e :| e in edges && (e.a, e.b) == p;
        assert IsMatchOf(db, text, RulesFor(entityType), cands, threshold, e);
      }
      if p in MatchPairs(db, text, fts, entityType, keys, threshold) {
        assert HasEdge(edges, p);
        var e :| e in edges && (e.a, e.b) == p;
      }
    }
  }

  /** ...and gives each bag of two or more atoms the mean of its match scores,
      which lies between the threshold and 1. */
  lemma ClusterScores(before: Db, after: Db, text: Text, fts: map<int, seq<int>>, entityType: string, keys: seq<string>,
                      threshold: real, edges: seq<MatchEdge>, groups: seq<set<int>>, clusters: nat, b: int)
    requires Resolved(before, after, text, fts, entityType, keys, threshold, edges, groups, clusters)
    requires before.nextBag <= b < after.nextBag
    ensures b in after.bags && after.bags[b].atomCount == |groups[b - before.nextBag]|
    ensures after.bags[b].atomCount >= 2 ==>
              after.bags[b].score.Some? && threshold <= after.bags[b].score.value <= 1.0
  {
    hide CandidateSet, ScoredGroups, Score;
    var i := b - before.nextBag;
    assert before.nextBag + i in after.bags && BagFor(before, edges, groups[i], after.bags[before.nextBag + i]);
    if |groups[i]| >= 2 {
      var scores := MemberScores(edges, groups[i]);
      forall j | 0 <= j < |scores| ensures threshold <= scores[j] <= 1.0 {
        var e :| e in edges && e.score == scores[j];
        assert IsMatchOf(before, text, RulesFor(entityType), CandidateSet(before, text, fts, entityType, keys),
                         threshold, e);
        PairScoreBounds(before, text, entityType, (e.a, e.b));
      }
      MeanRange(scores, threshold, 1.0);
    }
  }

  lemma PairScoreBounds(db: Db, text: Text, entityType: string, p: Pair)
    ensures 0.0 <= PairScore(db, text, RulesFor(entityType), p) <= 1.0
  {
    if p.0 in db.atoms && p.1 in db.atoms {
      ScoreBounds(text, RulesFor(entityType), db.atoms[p.0].props, db.atoms[p.1].props);
    }
  }

  // ---- Any run ----

  datatype Op =
    | OpCreate(entityType: string, atoms: seq<int>, key: Option<string>)
    | OpMerge(bags: seq<int>, reason: string)
    | OpSplit(bag: int, atoms: seq<int>, reason: string)
    | OpResolve(entityType: string, keys: seq<string>)
    | OpResolveScored(entityType: string, keys: seq<string>, threshold: real)

  /** Every run of resolver calls, failed ones included: the log is only appended
      to, replaying it rebuilds the membership, and a retired bag stays empty. */
  method Run(resolver: EntityResolver, ops: seq<Op>)
    requires Valid(resolver.db)
    modifies resolver
    ensures Valid(resolver.db)
    ensures old(resolver.db.events) <= resolver.db.events && resolver.db.atoms == old(resolver.db.atoms)
    ensures forall e | e in old(resolver.db.events) && e.kind.MergeInto? :: MembersOf(resolver.db.members, e.bag) == {}
  {
    for n := 0 to |ops|
      invariant Valid(resolver.db)
      invariant old(resolver.db.events) <= resolver.db.events && resolver.db.atoms == old(resolver.db.atoms)
    {
      hide Valid, MembersOf, Dedupe;
      match ops[n]
      case OpCreate(t, atoms, key) => var _ := resolver.CreateBag(t, atoms, key);
      case OpMerge(bags, reason) => var _ := resolver.MergeBags(bags, reason);
      case OpSplit(b, atoms, reason) => var _ := resolver.SplitBag(b, atoms, reason);
      case OpResolve(t, keys) => var _, _, _ := resolver.ResolveExact(t, keys);
      case OpResolveScored(t, keys, threshold) => var _, _, _ := resolver.ResolveScored(t, keys, threshold);
    }
    StaysRetired(old(resolver.db.events), resolver.db);
  }

  lemma StaysRetired(earlier: seq<Event>, db: Db)
    requires Valid(db) && earlier <= db.events
    ensures forall e | e in earlier && e.kind.MergeInto? :: MembersOf(db.members, e.bag) == {}
  {
    hide Replay, Replays, MembersOf;
    forall e | e in earlier ensures e in db.events {
      var i :| 0 <= i < |earlier| && earlier[i] == e;
      assert db.events[i] == e;
    }
  }

  // ---- Exact keys ----

  /** One group per key: the unresolved atoms that have that key. */
  ghost predicate KeyGroups(db: Db, text: Text, entityType: string, keys: seq<string>, groups: seq<set<int>>) {
    (forall i | 0 <= i < |groups| :: groups[i] != {}) &&
    (forall i, a | 0 <= i < |groups| && a in groups[i] ::
       Unresolved(db, entityType, a) && ExactKey(text, db.atoms[a].props, keys).Some?) &&
    (forall i, a, b |
       0 <= i < |groups| && a in groups[i] && Unresolved(db, entityType, a) && Unresolved(db, entityType, b) ::
       b in groups[i] <==> ExactKey(text, db.atoms[b].props, keys) == ExactKey(text, db.atoms[a].props, keys)) &&
    (forall a | Unresolved(db, entityType, a) && ExactKey(text, db.atoms[a].props, keys).Some? ::
       exists i :: 0 <= i < |groups| && a in groups[i])
  }

  ghost function Larger(groups: seq<set<int>>): nat {
    if groups == [] then 0
    else Larger(groups[..|groups| - 1]) + if |groups[|groups| - 1]| >= 2 then 1 else 0
  }

  ghost function Total(groups: seq<set<int>>): nat {
    if groups == [] then 0 else Total(groups[..|groups| - 1]) + |groups[|groups| - 1]|
  }

  lemma GroupAppended(groups: seq<set<int>>, g: set<int>)
    ensures Larger(groups + [g]) == Larger(groups) + if |g| >= 2 then 1 else 0
    ensures Total(groups + [g]) == Total(groups) + |g|
  {
    assert (groups + [g])[..|groups|] == groups;
  }

  /** The dictionary of clusters after some atoms. */
  ghost predicate Clusters(db: Db, text: Text, keys: seq<string>, seen: seq<int>, order: seq<string>,
                           clusters: map<string, seq<int>>)
  {
    (forall a | a in seen :: a in db.atoms) && Distinct(order) && (forall k :: k in order <==> k in clusters) &&
    (forall k | k in clusters :: clusters[k] != [] && Distinct(clusters[k])) &&
    (forall k, a | k in clusters :: a in clusters[k] <==>
       a in seen && a in db.atoms && ExactKey(text, db.atoms[a].props, keys) == Some(k)) &&
    forall a | a in seen && ExactKey(text, db.atoms[a].props, keys).Some? ::
      ExactKey(text, db.atoms[a].props, keys).value in clusters
  }

  lemma ClusterNext(db: Db, text: Text, keys: seq<string>, seen: seq<int>, order: seq<string>,
                    clusters: map<string, seq<int>>, a: int)
    requires Clusters(db, text, keys, seen, order, clusters) && a in db.atoms && a !in seen
    ensures var key := ExactKey(text, db.atoms[a].props, keys);
            if key.None? then Clusters(db, text, keys, seen + [a], order, clusters)
            else Clusters(db, text, keys, seen + [a],
                          if key.value in clusters then order else order + [key.value],
                          clusters[key.value := (if key.value in clusters then clusters[key.value] else []) + [a]])
  {
    hide ExactKey;
    assert forall x :: x in seen + [a] <==> x in seen || x == a;
    var key := ExactKey(text, db.atoms[a].props, keys);
    if key.Some? {
      ClusterGrows(db, text, keys, seen, order, clusters, a, key.value);
    }
  }

  lemma ClusterGrows(db: Db, text: Text, keys: seq<string>, seen: seq<int>, order: seq<string>,
                     clusters: map<string, seq<int>>, a: int, key: string)
    requires Clusters(db, text, keys, seen, order, clusters) && a in db.atoms && a !in seen
    requires ExactKey(text, db.atoms[a].props, keys) == Some(key)
    ensures Clusters(db, text, keys, seen + [a], if key in clusters then order else order + [key],
                     clusters[key := (if key in clusters then clusters[key] else []) + [a]])
  {
    hide ExactKey;
    assert forall x :: x in seen + [a] <==> x in seen || x == a;
    var before := if key in clusters then clusters[key] else [];
    assert forall x :: x in before + [a] <==> x in before || x == a;
    assert a !in before && Distinct(before + [a]);
    var grown := clusters[key := before + [a]];
    forall k, x | k in grown
      ensures x in grown[k] <==>
                x in seen + [a] && x in db.atoms && ExactKey(text, db.atoms[x].props, keys) == Some(k) {}
  }

  lemma ClusterBaggable(start: Db, now: Db, text: Text, entityType: string, keys: seq<string>, ids: seq<int>,
                        order: seq<string>, clusters: map<string, seq<int>>, groups: seq<set<int>>, n: nat)
    requires Clusters(start, text, keys, ids, order, clusters) && n < |order| && Bagged(start, now, groups) &&
             |groups| == n
    requires forall i | 0 <= i < n :: order[i] in clusters && groups[i] == Elements(clusters[order[i]])
    requires forall a :: a in ids <==> Unresolved(start, entityType, a)
    ensures order[n] in clusters && Baggable(now, entityType, Dedupe(clusters[order[n]]))
    ensures Elements(Dedupe(clusters[order[n]])) == Elements(clusters[order[n]])
  {
    hide ExactKey;
    assert order[n] in order;
    var members := clusters[order[n]];
    var m := Dedupe(members);
    hide Dedupe;
    forall a ensures a in Elements(m) <==> a in Elements(members) {
      assert a in m <==> a in members;
    }
    var w := members[0];
    assert w in members && w in m;
    forall a | a in m ensures a in now.atoms && now.atoms[a].entityType == entityType && Free(now, a) {
      assert a in members && a in ids && Unresolved(start, entityType, a);
      forall i | 0 <= i < n ensures a !in groups[i] {
        assert order[i] != order[n];
        assert a in groups[i] <==> a in clusters[order[i]];
      }
      BaggedFree(start, now, groups, a);
    }
  }

  lemma ClustersAreKeyGroups(start: Db, text: Text, entityType: string, keys: seq<string>, ids: seq<int>,
                             order: seq<string>, clusters: map<string, seq<int>>, groups: seq<set<int>>)
    requires Clusters(start, text, keys, ids, order, clusters) && |groups| == |order|
    requires forall i | 0 <= i < |order| :: order[i] in clusters && groups[i] == Elements(clusters[order[i]])
    requires forall a :: a in ids <==> Unresolved(start, entityType, a)
    ensures KeyGroups(start, text, entityType, keys, groups)
  {
    hide ExactKey;
    forall i | 0 <= i < |groups| ensures groups[i] != {} {
      var w := clusters[order[i]][0];
      assert w in clusters[order[i]] && w in groups[i];
    }
    forall i, a | 0 <= i < |groups| ensures a in groups[i] <==> a in clusters[order[i]] {}
    forall a | Unresolved(start, entityType, a) && ExactKey(text, start.atoms[a].props, keys).Some?
      ensures exists i :: 0 <= i < |groups| && a in groups[i]
    {
      assert a in ids;
      var k := ExactKey(text, start.atoms[a].props, keys).value;
      assert k in clusters && k in order;
      var i :| 0 <= i < |order| && order[i] == k;
      assert a in clusters[k] && a in groups[i];
    }
  }

  lemma FreeRows(db: Db, a: int)
    ensures Free(db, a) <==> forall m | m in db.members :: m.1 != a
  {
    if Free(db, a) {
      forall m | m in db.members ensures m.1 != a {
        var b, x := m.0, m.1;
        assert (b, x) in db.members;
      }
    }
    if forall m | m in db.members :: m.1 != a {
      forall b ensures (b, a) !in db.members {
        var m := (b, a);
        assert m.1 == a;
      }
    }
  }

  lemma NoMembers(members: set<Member>, b: int)
    requires forall m | m in members :: m.0 != b
    ensures MembersOf(members, b) == {}
  {}

  lemma SameAtoms(members: set<Member>, ids: seq<int>)
    ensures (set m | m in members && m.0 in ids :: m.1) == AtomsOf(members, ids)
  {}

  lemma SameMembers(members: set<Member>, b: int)
    ensures (set m | m in members && m.0 == b :: m.1) == MembersOf(members, b)
  {}

  /** What a merge leaves behind, in full: where every atom is, what every bag
      row says, and which events were appended. */
  ghost predicate IsMerge(before: Db, after: Db, ids: seq<int>)
    requires ids != []
  {
    after.atoms == before.atoms && after.nextBag == before.nextBag && after.candidates == before.candidates &&
    before.events <= after.events && |after.events| == |before.events| + |ids| &&
    after.bags.Keys == before.bags.Keys &&
    (forall b | b in before.bags :: MembersOf(after.members, b) ==
       if b == ids[0] then AtomsOf(before.members, ids) else if b in ids then {} else MembersOf(before.members, b)) &&
    forall b | b in before.bags ::
      after.bags[b] == if b == ids[0] then before.bags[b].(atomCount := |AtomsOf(before.members, ids)|, score := None)
                       else if b in ids then before.bags[b].(atomCount := 0) else before.bags[b]
  }

  lemma MergeResult(before: Db, now: Db, ids: seq<int>)
    requires Valid(before) && Mergeable(before, ids) && Merging(before, now, ids, |ids|)
    ensures IsMerge(before, Recounted(now, ids[0], |MembersOf(now.members, ids[0])|), ids)
  {
    hide Replay, Replays, Counted, Retired, Homogeneous, MembersOf, AtomsOf;
    MergeMembers(before, now, ids);
    MergeLosers(ids);
  }
}
