/** What resolution by key and by score means for the atoms' own properties. */
module ResolverLaws {
  import opened Wrappers
  import opened Collections
  import opened IdSets
  import opened Matching
  import opened Similarity
  import opened Clustering
  import opened BagStore
  import opened Resolver

  // ---- Exact keys ----

  /** The normalized values an exact key is made of, key by key. */
  lemma {:induction false} ExactPartsOf(text: Text, props: Props, p: seq<string>, q: seq<string>)
    ensures ExactParts(text, props, p + q) == ExactParts(text, props, p) + ExactParts(text, props, q)
    ensures |p| == 1 ==>
              ExactParts(text, props, p) ==
                if p[0] in props && props[p[0]] != "" then [text.strip(text.lower(props[p[0]]))] else []
  {
    if p == [] {
      assert p + q == q;
    } else {
      assert (p + q)[1..] == p[1..] + q;
      ExactPartsOf(text, props, p[1..], q);
      if |p| == 1 { assert ExactParts(text, props, p[1..]) == []; }
    }
  }

  /** An atom has no key exactly when it has none of the values; with one key the
      value is the key. */
  lemma {:induction false} ExactKeyOf(text: Text, props: Props, keys: seq<string>)
    ensures ExactKey(text, props, keys) == None <==> forall k | k in keys :: k !in props || props[k] == ""
    ensures |keys| == 1 && keys[0] in props && props[keys[0]] != "" ==>
              ExactKey(text, props, keys) == Some(text.strip(text.lower(props[keys[0]])))
  {
    if keys != [] {
      ExactKeyOf(text, props, keys[1..]);
      assert keys == [keys[0]] + keys[1..];
      if |keys| == 1 { JoinedParts(ExactParts(text, props, keys), []); }
    }
  }

  // ---- Scores of clusters ----

  /** The scores of the edges with both ends inside, in order. */
  lemma {:induction false} ScoresWithin(p: seq<MatchEdge>, q: seq<MatchEdge>, component: set<int>)
    ensures MemberScores(p + q, component) == MemberScores(p, component) + MemberScores(q, component)
    ensures |p| == 1 ==>
              MemberScores(p, component) == if p[0].a in component && p[0].b in component then [p[0].score] else []
  {
    if p == [] {
      assert p + q == q;
    } else {
      assert (p + q)[1..] == p[1..] + q;
      ScoresWithin(p[1..], q, component);
      if |p| == 1 { assert MemberScores(p[1..], component) == []; }
    }
  }

  /** The mean: the number whose multiple is the sum. */
  lemma {:induction false} SumOf(p: seq<real>, q: seq<real>)
    ensures Sum(p + q) == Sum(p) + Sum(q)
    ensures |p| == 1 ==> Sum(p) == p[0]
    ensures p != [] ==> Mean(p) * |p| as real == Sum(p)
  {
    if p == [] {
      assert p + q == q;
    } else {
      assert (p + q)[1..] == p[1..] + q;
      SumOf(p[1..], q);
    }
  }

  // ---- Lists of ids ----

  /** Duplicates go, first occurrences stay in order. */
  lemma {:induction false} DedupeKeepsFirst(p: seq<int>, q: seq<int>)
    ensures Dedupe(p) <= Dedupe(p + q)
    ensures Distinct(p) ==> Dedupe(p) == p
    decreases |p| + |q|
  {
    if q != [] {
      var last := |q| - 1;
      assert (p + q)[..|p + q| - 1] == p + q[..last];
      DedupeKeepsFirst(p, q[..last]);
    } else if p != [] {
      assert p + q == p;
      DedupeKeepsFirst(p[..|p| - 1], []);
      assert p[..|p| - 1] + [] == p[..|p| - 1];
    }
  }

  // ---- Atoms that agree are one entity ----

  /** The blocking field of each kind of entity. */
  ghost predicate BlocksOn(entityType: string, field: string) {
    (entityType == "binaries" && field == "executable_name") || (entityType == "daemons" && field == "label") ||
    (entityType == "frameworks" && field == "name") || (entityType == "kexts" && field == "bundle_id") ||
    (entityType == "files" && field == "filename")
  }

  /** The atoms of a kind that have this blocking value. */
  ghost function SameValued(db: Db, text: Text, entityType: string, field: string, value: string): set<int> {
    set a | a in db.atoms && db.atoms[a].entityType == entityType &&
            BlockingValue(text, db.atoms[a].props, field) == value
  }

  /** A scored field is shared, and every one that is agrees in full. */
  ghost predicate Agree(text: Text, rules: seq<FieldRule>, a: Props, b: Props) {
    (exists i: nat :: Shared(rules, i, a, b)) && AllAlike(text, rules, a, b, 1.0)
  }

  lemma AgreeBack(text: Text, rules: seq<FieldRule>, a: Props, b: Props)
    requires Agree(text, rules, a, b)
    ensures Agree(text, rules, b, a)
  {
    hide Comparator.Compare;
    var i: nat :| Shared(rules, i, a, b);
    assert Shared(rules, i, b, a);
    forall i: nat | Shared(rules, i, b, a) ensures Alike(text, rules, i, b, a) == 1.0 {
      assert Shared(rules, i, a, b);
      CompareSymmetric(text, rules[i].comparator, a[rules[i].field], b[rules[i].field]);
      assert Alike(text, rules, i, a, b) == 1.0;
    }
  }

  /** Two atoms of a kind, neither in a bag, with the same blocking value, few
      others having it, and every scored field they share agreeing in full: a
      scored run that succeeds puts them in one bag, whatever its threshold. */
  lemma AgreeingAtomsJoin(before: Db, after: Db, text: Text, fts: map<int, seq<int>>, entityType: string,
                          threshold: real, edges: seq<MatchEdge>, groups: seq<set<int>>, clusters: nat, x: int, y: int,
                          field: string)
    requires Valid(before) && threshold <= 1.0
    requires Resolved(before, after, text, fts, entityType, BlockKeys(entityType, []), threshold, edges, groups,
                      clusters)
    requires BlocksOn(entityType, field)
    requires Unresolved(before, entityType, x) && Unresolved(before, entityType, y)
    requires var (a, b) := (before.atoms[x].props, before.atoms[y].props);
             var value := BlockingValue(text, a, field);
             value != "" && value == BlockingValue(text, b, field) &&
             |SameValued(before, text, entityType, field, value)| <= 200 && Agree(text, RulesOf(entityType), a, b)
    ensures SameBag(after, x, y)
  {
    hide Resolved, Valid, Agree, Linked, MatchPairs, Comparator.Compare;
    var keys := BlockKeys(entityType, []);
    DefaultBlocking(entityType, field);
    ScoredPartition(before, after, text, fts, entityType, keys, threshold, edges, groups, clusters, x, y);
    var pairs := MatchPairs(before, text, fts, entityType, keys, threshold);
    if x == y {
      LinkedSelf(pairs, x);
    } else {
      AgreeBack(text, RulesOf(entityType), before.atoms[x].props, before.atoms[y].props);
      var (a, b) := if x < y then (x, y) else (y, x);
      AgreeingMatch(before, text, fts, entityType, threshold, field, a, b);
      LinkedEdge(pairs, a, b);
      LinkedSymmetric(pairs, a, b);
    }
  }

  lemma DefaultBlocking(entityType: string, field: string)
    requires BlocksOn(entityType, field)
    ensures BlockKeys(entityType, []) == [field]
  {
  }

  lemma AgreeingMatch(db: Db, text: Text, fts: map<int, seq<int>>, entityType: string, threshold: real, field: string,
                      x: int, y: int)
    requires x < y && threshold <= 1.0 && BlocksOn(entityType, field)
    requires Unresolved(db, entityType, x) && Unresolved(db, entityType, y)
    requires var (a, b) := (db.atoms[x].props, db.atoms[y].props);
             var value := BlockingValue(text, a, field);
             value != "" && value == BlockingValue(text, b, field) &&
             |SameValued(db, text, entityType, field, value)| <= 200 && Agree(text, RulesOf(entityType), a, b)
    ensures (x, y) in MatchPairs(db, text, fts, entityType, [field], threshold)
  {
    hide AllAlike, Shared, Comparator.Compare, ScoringSpec, BucketKey, Comparable;
    var (a, b) := (db.atoms[x].props, db.atoms[y].props);
    var blocks := Blockables(db, text, fts, entityType, [field]);
    var value := BlockingValue(text, a, field);
    ScoreExtremes(text, RulesFor(entityType), a, b);
    assert RulesFor(entityType) == RulesOf(entityType);
    forall c | c in blocks ensures blocks[c].bucket == Some(value) <==>
      c in SameValued(db, text, entityType, field, value) {
      Buckets(text, db.atoms[c].props, a, [field]);
      assert [field][0] == field;
    }
    assert Bucket(blocks, value) == SameValued(db, text, entityType, field, value);
    SharedBucket(blocks, x, y, value);
    hide Score;
  }

  lemma SharedBucket(blocks: map<int, Blockable>, x: int, y: int, value: string)
    requires x in blocks && y in blocks && x < y && blocks[x].bucket == blocks[y].bucket == Some(value)
    requires |Bucket(blocks, value)| <= 200
    ensures Comparable(blocks, x, y)
  {
  }
}
