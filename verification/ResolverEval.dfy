/** Measuring the scored resolver: pairwise counts against a ground truth, the
    threshold sweep, and the choice of an operating threshold. */
module ResolverEval {
  import opened Wrappers
  import opened Collections
  import opened IdSets
  import opened Matching
  import opened Clustering
  import opened BagStore
  import opened Resolver

  datatype Metrics = Metrics(precision: real, recall: real, f1: real, tp: nat, fp: nat, fn: nat)

  /** Ground truth: each atom's cluster. */
  type Truth = map<int, int>

  ghost function AllPairs(truth: Truth): set<Pair> {
    set x, y | x in truth && y in truth && x < y :: (x, y)
  }

  ghost predicate TrueSame(truth: Truth, p: Pair) {
    p.0 in truth && p.1 in truth && truth[p.0] == truth[p.1]
  }

  /** Two different atoms of the type count as predicted-same when one bag holds both. */
  ghost predicate Predicted(db: Db, entityType: string, p: Pair) {
    Typed(db, entityType, p.0) && Typed(db, entityType, p.1) && SameBag(db, p.0, p.1)
  }

  predicate Typed(db: Db, entityType: string, a: int) {
    a in db.atoms && db.atoms[a].entityType == entityType
  }

  function Precision(tp: nat, fp: nat): real { if tp + fp > 0 then tp as real / (tp + fp) as real else 1.0 }
  function Recall(tp: nat, fn: nat): real { if tp + fn > 0 then tp as real / (tp + fn) as real else 1.0 }
  function F1(precision: real, recall: real): real {
    if precision + recall != 0.0 then 2.0 * precision * recall / (precision + recall) else 0.0
  }

  ghost function Hits(pairs: set<Pair>, truth: Truth, predicted: set<Pair>): set<Pair> {
    set p | p in pairs && TrueSame(truth, p) && p in predicted
  }

  ghost function FalseAlarms(pairs: set<Pair>, truth: Truth, predicted: set<Pair>): set<Pair> {
    set p | p in pairs && !TrueSame(truth, p) && p in predicted
  }

  ghost function Misses(pairs: set<Pair>, truth: Truth, predicted: set<Pair>): set<Pair> {
    set p | p in pairs && TrueSame(truth, p) && p !in predicted
  }

  /** The metrics of a set of predicted pairs. */
  ghost function MetricsOf(truth: Truth, predicted: set<Pair>): Metrics {
    var tp := |Hits(AllPairs(truth), truth, predicted)|;
    var fp := |FalseAlarms(AllPairs(truth), truth, predicted)|;
    var fn := |Misses(AllPairs(truth), truth, predicted)|;
    var (precision, recall) := (Precision(tp, fp), Recall(tp, fn));
    Metrics(precision, recall, F1(precision, recall), tp, fp, fn)
  }

  /** Precision and recall are shares, and 1 exactly when nothing went wrong. */
  lemma Shares(right: nat, wrong: nat)
    ensures Precision(right, wrong) == Recall(right, wrong)
    ensures 0.0 <= Precision(right, wrong) <= 1.0
    ensures right + wrong > 0 ==> Precision(right, wrong) * (right + wrong) as real == right as real
    ensures Precision(right, wrong) == 1.0 <==> wrong == 0
    ensures Precision(right, wrong) == 0.0 <==> right == 0 && wrong > 0
  {
    if right + wrong > 0 {
      var (n, d, q) := (right as real, (right + wrong) as real, Precision(right, wrong));
      assert q * d == n;
      assert q < 0.0 ==> q * d < 0.0;
      assert q > 1.0 ==> (q - 1.0) * d > 0.0;
    }
  }

  /** F1 is their harmonic mean: between the two, and the share that the pairs
      counted right, twice over, have in all that were counted. */
  lemma Harmonic(tp: nat, fp: nat, fn: nat)
    ensures var (p, r) := (Precision(tp, fp), Recall(tp, fn));
            var f := F1(p, r);
            f * (p + r) == 2.0 * p * r && f * (2 * tp + fp + fn) as real == (2 * tp) as real &&
            (p <= f <= r || r <= f <= p) && (f == 0.0 <==> tp == 0 && fp + fn > 0) && (f == 1.0 <==> fp + fn == 0)
  {
    Shares(tp, fp);
    Shares(tp, fn);
    var (p, r) := (Precision(tp, fp), Recall(tp, fn));
    hide Precision, Recall;
    HarmonicMean(p, r);
    hide F1;
    if tp > 0 { HarmonicCounts(tp as real, (tp + fp) as real, (tp + fn) as real, p, r, F1(p, r)); }
    var (f, all) := (F1(p, r), (2 * tp + fp + fn) as real);
    assert f == 1.0 && all > 0.0 ==> all == (2 * tp) as real;
  }

  lemma HarmonicMean(p: real, r: real)
    requires 0.0 <= p <= 1.0 && 0.0 <= r <= 1.0
    ensures F1(p, r) * (p + r) == 2.0 * p * r
    ensures p <= F1(p, r) <= r || r <= F1(p, r) <= p
    ensures F1(p, r) == 0.0 <==> p == 0.0 || r == 0.0
    ensures F1(p, r) == 1.0 <==> p == 1.0 && r == 1.0
  {
    if p + r != 0.0 {
      var f := F1(p, r);
      var (low, high) := if p <= r then (p, r) else (r, p);
      assert f * (low + high) == 2.0 * low * high;
      hide F1;
      Between(low, high, f);
    }
  }

  lemma Between(low: real, high: real, f: real)
    requires 0.0 <= low <= high <= 1.0 && low + high > 0.0 && f * (low + high) == 2.0 * low * high
    ensures low <= f <= high && (f == 0.0 <==> low == 0.0) && (f == 1.0 <==> low == 1.0)
  {
    var sum := low + high;
    assert (f - low) * sum == low * (high - low);
    assert (high - f) * sum == high * (high - low);
    SignOf(f - low, sum, low, high - low);
    SignOf(high - f, sum, high, high - low);
    if low == 0.0 { SignOf(-f, sum, 0.0, 0.0); }
    if f == 1.0 { BothOne(low, high); }
  }

  lemma SignOf(x: real, d: real, u: real, v: real)
    requires d > 0.0 && u >= 0.0 && v >= 0.0 && x * d == u * v
    ensures x >= 0.0
  {
    assert u * v >= 0.0;
    assert x < 0.0 ==> x * d < 0.0;
  }

  lemma BothOne(low: real, high: real)
    requires 0.0 <= low <= high <= 1.0 && low + high == 2.0 * low * high && low + high > 0.0
    ensures low == 1.0
  {
    var (x, y) := (1.0 - high, 1.0 - low);
    Product(low, x);
    Product(high, y);
    assert low * x + high * y == low + high - 2.0 * low * high;
  }

  lemma Product(x: real, y: real)
    requires x >= 0.0 && y >= 0.0
    ensures x * y >= 0.0 && (x > 0.0 && y > 0.0 ==> x * y > 0.0)
  {}

  lemma HarmonicCounts(tp: real, a: real, b: real, p: real, r: real, f: real)
    requires tp > 0.0 && a > 0.0 && b > 0.0 && p * a == tp && r * b == tp && f * (p + r) == 2.0 * p * r
    ensures f * (a + b) == 2.0 * tp
  {
    assert f * (p + r) * (a * b) == 2.0 * (p * a) * (r * b);
    assert f * (p + r) * (a * b) == f * ((p * a) * b + (r * b) * a);
    assert f * (tp * b + tp * a) == 2.0 * tp * tp;
    assert (f * (a + b) - 2.0 * tp) * tp == 0.0;
  }

  /** What the numbers of an evaluation say about its pairs. */
  lemma MetricsMeaning(truth: Truth, predicted: set<Pair>)
    ensures var m := MetricsOf(truth, predicted);
            (m.precision == 1.0 <==>
               forall p | p in predicted && p in AllPairs(truth) :: truth[p.0] == truth[p.1]) &&
            (m.recall == 1.0 <==> forall p | p in AllPairs(truth) && truth[p.0] == truth[p.1] :: p in predicted) &&
            (m.f1 == 1.0 <==> m.precision == 1.0 && m.recall == 1.0) &&
            (m.tp + m.fp > 0 ==> m.precision * (m.tp + m.fp) as real == m.tp as real) &&
            (m.tp + m.fn > 0 ==> m.recall * (m.tp + m.fn) as real == m.tp as real) &&
            m.f1 * (2 * m.tp + m.fp + m.fn) as real == (2 * m.tp) as real
  {
    var m := MetricsOf(truth, predicted);
    Shares(m.tp, m.fp);
    Shares(m.tp, m.fn);
    Harmonic(m.tp, m.fp, m.fn);
    hide Precision, Recall, F1;
    hide AllPairs, FalseAlarms, Misses, Hits;
    NoneWrong(truth, predicted);
    NoneMissed(truth, predicted);
  }

  lemma NoneWrong(truth: Truth, predicted: set<Pair>)
    ensures |FalseAlarms(AllPairs(truth), truth, predicted)| == 0 <==>
              forall p | p in predicted && p in AllPairs(truth) :: truth[p.0] == truth[p.1]
  {
    var wrong := FalseAlarms(AllPairs(truth), truth, predicted);
    forall p | p in AllPairs(truth) ensures p in wrong <==> p in predicted && truth[p.0] != truth[p.1] {}
    hide AllPairs;
    if wrong != {} { var p := Pick(wrong); }
  }

  lemma NoneMissed(truth: Truth, predicted: set<Pair>)
    ensures |Misses(AllPairs(truth), truth, predicted)| == 0 <==>
              forall p | p in AllPairs(truth) && truth[p.0] == truth[p.1] :: p in predicted
  {
    var missed := Misses(AllPairs(truth), truth, predicted);
    forall p | p in AllPairs(truth) ensures p in missed <==> p !in predicted && truth[p.0] == truth[p.1] {}
    hide AllPairs;
    if missed != {} { var p := Pick(missed); }
  }

  ghost function PredictedPairs(db: Db, entityType: string, truth: Truth): set<Pair> {
    set p | p in AllPairs(truth) && Predicted(db, entityType, p)
  }

  // ---- evaluate ----

  ghost function Seen(atoms: seq<int>, i: int, j: int): set<Pair> {
    set a, b | 0 <= a < b < |atoms| && (a < i || (a == i && b < j)) :: (atoms[a], atoms[b])
  }

  lemma SeenNext(atoms: seq<int>, i: nat, j: nat)
    requires Increasing(atoms) && i < j < |atoms|
    ensures Seen(atoms, i, j + 1) == Seen(atoms, i, j) + {(atoms[i], atoms[j])}
    ensures (atoms[i], atoms[j]) !in Seen(atoms, i, j)
  {
    var p := (atoms[i], atoms[j]);
    forall q ensures q in Seen(atoms, i, j + 1) <==> q in Seen(atoms, i, j) || q == p {
      if q in Seen(atoms, i, j + 1) {
        var a, b :| 0 <= a < b < |atoms| && (a < i || (a == i && b < j + 1)) && q == (atoms[a], atoms[b]);
        if !(a < i || (a == i && b < j)) { assert b == j; }
      }
      if q in Seen(atoms, i, j) {
        var a, b :| 0 <= a < b < |atoms| && (a < i || (a == i && b < j)) && q == (atoms[a], atoms[b]);
        assert a < i || (a == i && b < j + 1);
      }
      assert i < i || (i == i && j < j + 1);
    }
    NotSeenYet(atoms, i, j);
  }

  lemma NotSeenYet(atoms: seq<int>, i: nat, j: nat)
    requires Increasing(atoms) && i < j < |atoms|
    ensures (atoms[i], atoms[j]) !in Seen(atoms, i, j)
  {
    forall a, b | 0 <= a < b < |atoms| && (a < i || (a == i && b < j))
      ensures (atoms[a], atoms[b]) != (atoms[i], atoms[j])
    {
      assert a < i ==> atoms[a] < atoms[i];
      assert a == i ==> atoms[b] < atoms[j];
    }
  }

  lemma SeenRow(atoms: seq<int>, i: nat)
    requires i < |atoms|
    ensures Seen(atoms, i, |atoms|) == Seen(atoms, i + 1, i + 2)
  {}

  lemma SeenAll(atoms: seq<int>, truth: Truth)
    requires Increasing(atoms) && forall a :: a in atoms <==> a in truth
    ensures Seen(atoms, |atoms|, |atoms| + 1) == AllPairs(truth)
  {
    forall x, y ensures (x, y) in Seen(atoms, |atoms|, |atoms| + 1) <==> (x, y) in AllPairs(truth) {
      if (x, y) in AllPairs(truth) {
        assert x in atoms && y in atoms;
        var a :| 0 <= a < |atoms| && atoms[a] == x;
        var b :| 0 <= b < |atoms| && atoms[b] == y;
        assert a < b;
      }
      if (x, y) in Seen(atoms, |atoms|, |atoms| + 1) {
        var a, b :| 0 <= a < b < |atoms| && (x, y) == (atoms[a], atoms[b]);
        assert x in atoms && y in atoms;
      }
    }
    PairSets(Seen(atoms, |atoms|, |atoms| + 1), AllPairs(truth));
  }

  ghost predicate Tallied(seen: set<Pair>, truth: Truth, predicted: set<Pair>, tp: nat, fp: nat, fn: nat) {
    tp == |Hits(seen, truth, predicted)| && fp == |FalseAlarms(seen, truth, predicted)| &&
    fn == |Misses(seen, truth, predicted)|
  }

  lemma HitsNext(seen: set<Pair>, truth: Truth, predicted: set<Pair>, q: Pair)
    requires q !in seen
    ensures |Hits(seen + {q}, truth, predicted)| ==
              |Hits(seen, truth, predicted)| + if TrueSame(truth, q) && q in predicted then 1 else 0
  {
    hide TrueSame;
    var old' := Hits(seen, truth, predicted);
    assert Hits(seen + {q}, truth, predicted) == if TrueSame(truth, q) && q in predicted then old' + {q} else old';
  }

  lemma FalseAlarmsNext(seen: set<Pair>, truth: Truth, predicted: set<Pair>, q: Pair)
    requires q !in seen
    ensures |FalseAlarms(seen + {q}, truth, predicted)| ==
              |FalseAlarms(seen, truth, predicted)| + if !TrueSame(truth, q) && q in predicted then 1 else 0
  {
    hide TrueSame;
    var old' := FalseAlarms(seen, truth, predicted);
    assert FalseAlarms(seen + {q}, truth, predicted) ==
           if !TrueSame(truth, q) && q in predicted then old' + {q} else old';
  }

  lemma MissesNext(seen: set<Pair>, truth: Truth, predicted: set<Pair>, q: Pair)
    requires q !in seen
    ensures |Misses(seen + {q}, truth, predicted)| ==
              |Misses(seen, truth, predicted)| + if TrueSame(truth, q) && q !in predicted then 1 else 0
  {
    hide TrueSame;
    var old' := Misses(seen, truth, predicted);
    assert Misses(seen + {q}, truth, predicted) == if TrueSame(truth, q) && q !in predicted then old' + {q} else old';
  }

  lemma TallyNext(seen: set<Pair>, next: set<Pair>, truth: Truth, predicted: set<Pair>, tp: nat, fp: nat, fn: nat,
                  q: Pair)
    requires Tallied(seen, truth, predicted, tp, fp, fn) && q !in seen && next == seen + {q}
    ensures var same, pred := TrueSame(truth, q), q in predicted;
            Tallied(next, truth, predicted,
                    if same && pred then tp + 1 else tp, if !same && pred then fp + 1 else fp,
                    if same && !pred then fn + 1 else fn)
  {
    hide TrueSame, Hits, FalseAlarms, Misses;
    HitsNext(seen, truth, predicted, q);
    FalseAlarmsNext(seen, truth, predicted, q);
    MissesNext(seen, truth, predicted, q);
  }

  /** `bagOf` holds the row (b, a) exactly when it is one of the type's and is not still to be read. */
  ghost predicate Reads(db: Db, entityType: string, bagOf: map<int, int>, rest: set<Member>, b: int, a: int) {
    (a in bagOf && bagOf[a] == b) <==> ((b, a) in db.members && (b, a) !in rest && Typed(db, entityType, a))
  }

  ghost predicate IsBagsOf(db: Db, entityType: string, bagOf: map<int, int>, rest: set<Member>) {
    forall b, a :: Reads(db, entityType, bagOf, rest, b, a)
  }

  lemma BagsNext(db: Db, entityType: string, bagOf: map<int, int>, rest: set<Member>, b: int, a: int,
                 next: map<int, int>, left: set<Member>)
    requires Valid(db) && IsBagsOf(db, entityType, bagOf, rest) && (b, a) in db.members && (b, a) in rest
    requires next == if Typed(db, entityType, a) then bagOf[a := b] else bagOf
    requires left == rest - {(b, a)}
    ensures IsBagsOf(db, entityType, next, left)
  {
    hide Valid, Typed;
    forall y, x ensures Reads(db, entityType, next, left, y, x) {
      assert Reads(db, entityType, bagOf, rest, y, x);
      if x == a && (y, a) in db.members { AtMostOneBag(db, a, b, y); }
    }
  }

  lemma BagsNone(db: Db, entityType: string)
    ensures IsBagsOf(db, entityType, map[], db.members)
  {}

  /** `atom_id -> bag_id` for one entity type. */
  method BagsOf(db: Db, entityType: string) returns (bagOf: map<int, int>)
    requires Valid(db)
    ensures IsBagsOf(db, entityType, bagOf, {})
  {
    hide Valid, Typed, IsBagsOf;
    bagOf := map[];
    var rest := db.members;
    BagsNone(db, entityType);
    while rest != {}
      invariant rest <= db.members
      invariant IsBagsOf(db, entityType, bagOf, rest)
      decreases rest
    {
      var m :| m in rest;
      var b, a := m.0, m.1;
      assert m == (b, a);
      ghost var was := bagOf;
      if Typed(db, entityType, a) {
        bagOf := bagOf[a := b];
      }
      BagsNext(db, entityType, was, rest, b, a, bagOf, rest - {m});
      rest := rest - {m};
    }
  }

  /** `group(x) == group(y)` of two atoms. */
  predicate SameGroup(bagOf: map<int, int>, x: int, y: int) { x in bagOf && y in bagOf && bagOf[x] == bagOf[y] }

  /** `evaluate`: every unordered pair of truth atoms, tallied. */
  method Evaluate(db: Db, entityType: string, truth: Truth) returns (metrics: Metrics)
    requires Valid(db)
    ensures metrics == MetricsOf(truth, PredictedPairs(db, entityType, truth))
  {
    hide Valid, AllPairs, Seen, TrueSame, Typed, PredictedPairs, Hits, FalseAlarms, Misses, Tallied, IsBagsOf,
         Increasing;
    var bagOf := BagsOf(db, entityType);
    var atoms := SortedIds(truth.Keys);
    ghost var predicted := PredictedPairs(db, entityType, truth);
    var tp, fp, fn := 0, 0, 0;
    SeenNone(atoms, truth, predicted);
    for i := 0 to |atoms|
      invariant Tallied(Seen(atoms, i, i + 1), truth, predicted, tp, fp, fn)
    {
      for j := i + 1 to |atoms|
        invariant Tallied(Seen(atoms, i, j), truth, predicted, tp, fp, fn)
      {
        var ai, aj := atoms[i], atoms[j];
        OnePair(db, entityType, truth, bagOf, atoms, i, j);
        TallyNext(Seen(atoms, i, j), Seen(atoms, i, j + 1), truth, predicted, tp, fp, fn, (ai, aj));
        var trueSame := truth[ai] == truth[aj];
        var predSame := SameGroup(bagOf, ai, aj);
        if trueSame && predSame {
          tp := tp + 1;
        } else if predSame && !trueSame {
          fp := fp + 1;
        } else if trueSame && !predSame {
          fn := fn + 1;
        }
      }
      SeenRow(atoms, i);
    }
    SeenAll(atoms, truth);
    TalliedAll(truth, predicted, tp, fp, fn);
    var precision, recall := Precision(tp, fp), Recall(tp, fn);
    metrics := Metrics(precision, recall, F1(precision, recall), tp, fp, fn);
  }

  lemma TalliedAll(truth: Truth, predicted: set<Pair>, tp: nat, fp: nat, fn: nat)
    requires Tallied(AllPairs(truth), truth, predicted, tp, fp, fn)
    ensures MetricsOf(truth, predicted) ==
              Metrics(Precision(tp, fp), Recall(tp, fn), F1(Precision(tp, fp), Recall(tp, fn)), tp, fp, fn)
  {
    hide AllPairs, Hits, FalseAlarms, Misses, Precision, Recall, F1;
  }

  lemma SeenNone(atoms: seq<int>, truth: Truth, predicted: set<Pair>)
    ensures Tallied(Seen(atoms, 0, 1), truth, predicted, 0, 0, 0)
  {
    assert Seen(atoms, 0, 1) == {};
    assert Hits({}, truth, predicted) == {} && FalseAlarms({}, truth, predicted) == {} &&
           Misses({}, truth, predicted) == {};
  }

  lemma OnePair(db: Db, entityType: string, truth: Truth, bagOf: map<int, int>, atoms: seq<int>, i: nat, j: nat)
    requires IsBagsOf(db, entityType, bagOf, {})
    requires Increasing(atoms) && (forall a :: a in atoms <==> a in truth) && i < j < |atoms|
    ensures atoms[i] in truth && atoms[j] in truth
    ensures var x, y := atoms[i], atoms[j];
            (TrueSame(truth, (x, y)) <==> truth[x] == truth[y]) &&
            ((x, y) in PredictedPairs(db, entityType, truth) <==> SameGroup(bagOf, x, y))
    ensures Seen(atoms, i, j + 1) == Seen(atoms, i, j) + {(atoms[i], atoms[j])} &&
            (atoms[i], atoms[j]) !in Seen(atoms, i, j)
  {
    hide Typed;
    SeenNext(atoms, i, j);
    var x, y := atoms[i], atoms[j];
    assert x in atoms && y in atoms;
    SameGroupPredicted(db, entityType, bagOf, x, y);
    assert (x, y) in AllPairs(truth);
  }

  lemma SameGroupPredicted(db: Db, entityType: string, bagOf: map<int, int>, x: int, y: int)
    requires IsBagsOf(db, entityType, bagOf, {})
    ensures Predicted(db, entityType, (x, y)) <==> SameGroup(bagOf, x, y)
  {
    hide Typed;
    if SameGroup(bagOf, x, y) {
      var b := bagOf[x];
      assert Reads(db, entityType, bagOf, {}, b, x) && Reads(db, entityType, bagOf, {}, b, y);
    }
    if Predicted(db, entityType, (x, y)) {
      var b :| (b, x) in db.members && (b, y) in db.members;
      assert Reads(db, entityType, bagOf, {}, b, x) && Reads(db, entityType, bagOf, {}, b, y);
    }
  }

  // ---- The rest of evaluate: recall by mutation, and false merges ----

  /** What each perturbed atom of the dataset is. A perturbation's cluster is its
      base atom, so (truth[a], a) is the pair it created. */
  type Labels = map<int, string>

  const MATCHING_MUTATIONS: seq<string> := ["identical", "move", "recompile", "rename"]

  predicate Confusable(mutation: string) { "confusable" <= mutation }

  ghost function Mutants(seen: set<int>, labels: Labels, mutation: string): set<int> {
    set a | a in seen && a in labels && labels[a] == mutation
  }

  ghost predicate Together(db: Db, entityType: string, x: int, y: int) {
    x == y || Predicted(db, entityType, (x, y))
  }

  /** The perturbed atoms found to be their base. */
  ghost function Recovered(seen: set<int>, db: Db, entityType: string, truth: Truth, labels: Labels,
                           mutation: string): set<int>
    requires labels.Keys <= truth.Keys
  {
    set a | a in Mutants(seen, labels, mutation) && Together(db, entityType, truth[a], a)
  }

  ghost predicate HasMate(db: Db, entityType: string, a: int) {
    exists y :: y != a && Predicted(db, entityType, (a, y))
  }

  /** The hard negatives that share a bag with anything. */
  ghost function FalselyMerged(seen: set<int>, db: Db, entityType: string, labels: Labels): set<int> {
    set a | a in seen && a in labels && Confusable(labels[a]) && HasMate(db, entityType, a)
  }

  lemma MutantsNext(seen: set<int>, a: int, db: Db, entityType: string, truth: Truth, labels: Labels, mutation: string)
    requires labels.Keys <= truth.Keys && a in labels && a !in seen
    ensures var hit := labels[a] == mutation;
            |Mutants(seen + {a}, labels, mutation)| == |Mutants(seen, labels, mutation)| + (if hit then 1 else 0) &&
            |Recovered(seen + {a}, db, entityType, truth, labels, mutation)| ==
              |Recovered(seen, db, entityType, truth, labels, mutation)| +
              (if hit && Together(db, entityType, truth[a], a) then 1 else 0)
  {
    hide Together;
    var was, found := Mutants(seen, labels, mutation), Recovered(seen, db, entityType, truth, labels, mutation);
    assert Mutants(seen + {a}, labels, mutation) == if labels[a] == mutation then was + {a} else was;
    assert Recovered(seen + {a}, db, entityType, truth, labels, mutation) ==
           if labels[a] == mutation && Together(db, entityType, truth[a], a) then found + {a} else found;
  }

  /** The atoms of one mutation, and how many share a bag with their base. */
  method CountMutants(db: Db, entityType: string, truth: Truth, labels: Labels, bagOf: map<int, int>, mutation: string)
    returns (total: nat, matched: nat)
    requires IsBagsOf(db, entityType, bagOf, {}) && labels.Keys <= truth.Keys
    ensures total == |Mutants(labels.Keys, labels, mutation)|
    ensures matched == |Recovered(labels.Keys, db, entityType, truth, labels, mutation)|
  {
    hide IsBagsOf, Together, Mutants, Recovered, Increasing;
    var ids := SortedIds(labels.Keys);
    total, matched := 0, 0;
    NoMutants(db, entityType, truth, labels, mutation);
    AllIds(labels.Keys, ids);
    for i := 0 to |ids|
      invariant total == |Mutants(Elements(ids[..i]), labels, mutation)|
      invariant matched == |Recovered(Elements(ids[..i]), db, entityType, truth, labels, mutation)|
    {
      var a := ids[i];
      NextId(labels.Keys, ids, i);
      MutantsNext(Elements(ids[..i]), a, db, entityType, truth, labels, mutation);
      TogetherGroups(db, entityType, bagOf, truth[a], a);
      if labels[a] == mutation {
        total := total + 1;
        if truth[a] == a || SameGroup(bagOf, truth[a], a) { matched := matched + 1; }
      }
    }
  }

  lemma NoMutants(db: Db, entityType: string, truth: Truth, labels: Labels, mutation: string)
    requires labels.Keys <= truth.Keys
    ensures Mutants({}, labels, mutation) == {} && Recovered({}, db, entityType, truth, labels, mutation) == {}
  {}

  lemma NextId(s: set<int>, ids: seq<int>, i: nat)
    requires ids == Ascend(s) && i < |ids|
    ensures ids[i] in s && ids[i] !in Elements(ids[..i]) && Elements(ids[..i + 1]) == Elements(ids[..i]) + {ids[i]}
  {
    assert ids[i] in ids;
    assert ids[..i + 1] == ids[..i] + [ids[i]];
    AppendElements(ids[..i], ids[i]);
  }

  lemma AllIds(s: set<int>, ids: seq<int>)
    requires ids == Ascend(s)
    ensures Elements(ids[..0]) == {} && Elements(ids[..|ids|]) == s
  {
    assert ids[..|ids|] == ids;
  }

  lemma TogetherGroups(db: Db, entityType: string, bagOf: map<int, int>, x: int, y: int)
    requires IsBagsOf(db, entityType, bagOf, {})
    ensures Together(db, entityType, x, y) <==> x == y || SameGroup(bagOf, x, y)
  {
    SameGroupPredicted(db, entityType, bagOf, x, y);
    hide Predicted, SameGroup, IsBagsOf;
  }

  ghost function Holders(bagOf: map<int, int>, seen: set<int>, b: int): set<int> {
    set a | a in seen && a in bagOf && bagOf[a] == b
  }

  ghost predicate Sized(bagOf: map<int, int>, seen: set<int>, sizes: map<int, nat>) {
    (forall b :: b in sizes <==> Holders(bagOf, seen, b) != {}) &&
    forall b | b in sizes :: sizes[b] == |Holders(bagOf, seen, b)|
  }

  lemma SizedNext(bagOf: map<int, int>, seen: set<int>, sizes: map<int, nat>, a: int)
    requires Sized(bagOf, seen, sizes) && a in bagOf && a !in seen
    ensures var b := bagOf[a]; Sized(bagOf, seen + {a}, sizes[b := 1 + if b in sizes then sizes[b] else 0])
  {
    var b := bagOf[a];
    var next := sizes[b := 1 + if b in sizes then sizes[b] else 0];
    forall c
      ensures c in next <==> Holders(bagOf, seen + {a}, c) != {}
      ensures c in next ==> next[c] == |Holders(bagOf, seen + {a}, c)|
    {
      HoldersNext(bagOf, seen, a, c);
      hide Holders;
    }
  }

  lemma HoldersNext(bagOf: map<int, int>, seen: set<int>, a: int, b: int)
    requires a in bagOf && a !in seen
    ensures Holders(bagOf, seen + {a}, b) == Holders(bagOf, seen, b) + if b == bagOf[a] then {a} else {}
    ensures a !in Holders(bagOf, seen, b)
  {}

  lemma SizedNone(bagOf: map<int, int>)
    ensures Sized(bagOf, {}, map[])
  {}

  lemma SizedBags(bagOf: map<int, int>, sizes: map<int, nat>, a: int)
    requires Sized(bagOf, bagOf.Keys, sizes) && a in bagOf
    ensures bagOf[a] in sizes
  {
    assert a in Holders(bagOf, bagOf.Keys, bagOf[a]);
  }

  /** How many atoms each bag holds. */
  method BagSizes(bagOf: map<int, int>) returns (sizes: map<int, nat>)
    ensures Sized(bagOf, bagOf.Keys, sizes)
  {
    hide Sized, Holders, Ascend;
    var ids := SortedIds(bagOf.Keys);
    sizes := map[];
    AllIds(bagOf.Keys, ids);
    SizedNone(bagOf);
    for i := 0 to |ids|
      invariant Sized(bagOf, Elements(ids[..i]), sizes)
    {
      var a := ids[i];
      NextId(bagOf.Keys, ids, i);
      SizedNext(bagOf, Elements(ids[..i]), sizes, a);
      var b := bagOf[a];
      sizes := sizes[b := 1 + if b in sizes then sizes[b] else 0];
    }
  }

  /** An atom has a mate exactly when its bag holds two or more. */
  lemma MateSizes(db: Db, entityType: string, bagOf: map<int, int>, a: int)
    requires IsBagsOf(db, entityType, bagOf, {})
    ensures HasMate(db, entityType, a) <==> a in bagOf && |Holders(bagOf, bagOf.Keys, bagOf[a])| >= 2
  {
    forall y { SameGroupPredicted(db, entityType, bagOf, a, y); }
    hide IsBagsOf, Predicted;
    if a in bagOf {
      var mates := Holders(bagOf, bagOf.Keys, bagOf[a]);
      assert a in mates;
      if y :| y != a && Predicted(db, entityType, (a, y)) { TwoMembers(mates, a, y); }
      if |mates| >= 2 {
        var others := mates - {a};
        assert mates == others + {a};
        var y := Pick(others);
        assert Predicted(db, entityType, (a, y));
      }
    }
  }

  lemma FalseMergesNext(seen: set<int>, a: int, db: Db, entityType: string, labels: Labels)
    requires a in labels && a !in seen
    ensures |FalselyMerged(seen + {a}, db, entityType, labels)| ==
              |FalselyMerged(seen, db, entityType, labels)| +
              if Confusable(labels[a]) && HasMate(db, entityType, a) then 1 else 0
  {
    hide Confusable, HasMate;
    var was := FalselyMerged(seen, db, entityType, labels);
    assert FalselyMerged(seen + {a}, db, entityType, labels) ==
           if Confusable(labels[a]) && HasMate(db, entityType, a) then was + {a} else was;
  }

  /** The hard negatives whose bag holds another atom. */
  method CountFalseMerges(db: Db, entityType: string, labels: Labels, bagOf: map<int, int>) returns (count: nat)
    requires IsBagsOf(db, entityType, bagOf, {})
    ensures count == |FalselyMerged(labels.Keys, db, entityType, labels)|
  {
    hide IsBagsOf, HasMate, FalselyMerged, Increasing, Holders, Confusable;
    var sizes := BagSizes(bagOf);
    var ids := SortedIds(labels.Keys);
    count := 0;
    NoFalseMerges(db, entityType, labels);
    AllIds(labels.Keys, ids);
    for i := 0 to |ids|
      invariant count == |FalselyMerged(Elements(ids[..i]), db, entityType, labels)|
    {
      var a := ids[i];
      NextId(labels.Keys, ids, i);
      FalseMergesNext(Elements(ids[..i]), a, db, entityType, labels);
      MateSizes(db, entityType, bagOf, a);
      if Confusable(labels[a]) && a in bagOf {
        SizedBags(bagOf, sizes, a);
        if sizes[bagOf[a]] >= 2 { count := count + 1; }
      }
    }
  }

  lemma NoFalseMerges(db: Db, entityType: string, labels: Labels)
    ensures FalselyMerged({}, db, entityType, labels) == {}
  {}

  /** The recall of each mutation that occurs, and the false merges. */
  method EvaluateMutations(db: Db, entityType: string, truth: Truth, labels: Labels)
    returns (recallOf: map<string, real>, falseMerges: nat)
    requires Valid(db) && labels.Keys <= truth.Keys
    ensures forall m :: m in recallOf <==>
              m in ["identical", "move", "recompile", "rename"] && Mutants(labels.Keys, labels, m) != {}
    ensures forall m | m in recallOf ::
              Mutants(labels.Keys, labels, m) != {} &&
              recallOf[m] == |Recovered(labels.Keys, db, entityType, truth, labels, m)| as real /
                             |Mutants(labels.Keys, labels, m)| as real
    ensures falseMerges == |FalselyMerged(labels.Keys, db, entityType, labels)|
  {
    hide Valid, IsBagsOf, Mutants, Recovered, FalselyMerged;
    var bagOf := BagsOf(db, entityType);
    recallOf := map[];
    for i := 0 to |MATCHING_MUTATIONS|
      invariant forall m :: m in recallOf <==> m in MATCHING_MUTATIONS[..i] && Mutants(labels.Keys, labels, m) != {}
      invariant forall m | m in recallOf ::
                Mutants(labels.Keys, labels, m) != {} &&
                recallOf[m] == |Recovered(labels.Keys, db, entityType, truth, labels, m)| as real /
                               |Mutants(labels.Keys, labels, m)| as real
    {
      var m := MATCHING_MUTATIONS[i];
      var total, matched := CountMutants(db, entityType, truth, labels, bagOf, m);
      assert MATCHING_MUTATIONS[..i + 1] == MATCHING_MUTATIONS[..i] + [m];
      if total > 0 { recallOf := recallOf[m := matched as real / total as real]; }
    }
    assert MATCHING_MUTATIONS[..|MATCHING_MUTATIONS|] == MATCHING_MUTATIONS;
    falseMerges := CountFalseMerges(db, entityType, labels, bagOf);
  }

  // ---- Monotonicity in the threshold ----

  /** A finer prediction has no more true and no more false positives, and no
      greater recall. */
  lemma FinerScoresLess(truth: Truth, fine: set<Pair>, coarse: set<Pair>)
    requires fine <= coarse
    ensures MetricsOf(truth, fine).tp <= MetricsOf(truth, coarse).tp
    ensures MetricsOf(truth, fine).fp <= MetricsOf(truth, coarse).fp
    ensures MetricsOf(truth, fine).fn >= MetricsOf(truth, coarse).fn
    ensures MetricsOf(truth, fine).recall <= MetricsOf(truth, coarse).recall
  {
    var all := AllPairs(truth);
    hide AllPairs, TrueSame, F1, Precision;
    SubsetSize(Hits(all, truth, fine), Hits(all, truth, coarse));
    SubsetSize(FalseAlarms(all, truth, fine), FalseAlarms(all, truth, coarse));
    SubsetSize(Misses(all, truth, coarse), Misses(all, truth, fine));
    TrueTotal(truth, fine);
    TrueTotal(truth, coarse);
    RecallGrows(MetricsOf(truth, fine).tp, MetricsOf(truth, fine).fn, MetricsOf(truth, coarse).tp,
                MetricsOf(truth, coarse).fn);
  }

  /** tp + fn is the number of true pairs, whatever was predicted. */
  lemma TrueTotal(truth: Truth, predicted: set<Pair>)
    ensures MetricsOf(truth, predicted).tp + MetricsOf(truth, predicted).fn ==
              |set p | p in AllPairs(truth) && TrueSame(truth, p)|
  {
    var all := AllPairs(truth);
    hide AllPairs, TrueSame, F1, Precision, Recall;
    var hit, miss := Hits(all, truth, predicted), Misses(all, truth, predicted);
    assert hit !! miss;
    assert (set p | p in all && TrueSame(truth, p)) == hit + miss;
  }

  lemma RecallGrows(tp: nat, fn: nat, tp': nat, fn': nat)
    requires tp <= tp' && tp + fn == tp' + fn'
    ensures Recall(tp, fn) <= Recall(tp', fn')
  {
    if tp + fn > 0 {
      var n := (tp + fn) as real;
      assert tp as real / n <= tp' as real / n by { DivideMonotone(tp as real, tp' as real, n); }
    }
  }

  lemma DivideMonotone(a: real, b: real, n: real)
    requires a <= b && n > 0.0
    ensures a / n <= b / n
  {
    var x, y := a / n, b / n;
    assert x * n == a && y * n == b;
    assert x > y ==> x * n > y * n;
  }

  /** What a sweep sees at one threshold, without reference to any run: the pairs
      linked by candidates scoring at least the threshold. */
  ghost function LinkedPairs(db: Db, text: Text, fts: map<int, seq<int>>, entityType: string, t: real,
                             truth: Truth): set<Pair>
  {
    set p |
      p in AllPairs(truth) && Linked(MatchPairs(db, text, fts, entityType, BlockKeys(entityType, []), t), p.0, p.1)
  }

  /** Bags at a higher threshold refine bags at a lower one. */
  lemma HigherRefines(db: Db, text: Text, fts: map<int, seq<int>>, entityType: string, lo: real, hi: real, truth: Truth)
    requires lo <= hi
    ensures LinkedPairs(db, text, fts, entityType, hi, truth) <= LinkedPairs(db, text, fts, entityType, lo, truth)
  {
    var keys := BlockKeys(entityType, []);
    var fine, coarse := MatchPairs(db, text, fts, entityType, keys, hi),
                        MatchPairs(db, text, fts, entityType, keys, lo);
    FewerMatches(db, text, fts, entityType, keys, lo, hi);
    hide MatchPairs, Linked, AllPairs;
    forall p | p in LinkedPairs(db, text, fts, entityType, hi, truth)
      ensures p in LinkedPairs(db, text, fts, entityType, lo, truth)
    {
      LinkedMonotone(fine, coarse, p.0, p.1);
    }
  }

  ghost function At(db: Db, text: Text, fts: map<int, seq<int>>, entityType: string, truth: Truth, t: real): Metrics {
    MetricsOf(truth, LinkedPairs(db, text, fts, entityType, t, truth))
  }

  /** Raising the threshold never raises tp, fp or recall. */
  lemma RecallFallsWithThreshold(db: Db, text: Text, fts: map<int, seq<int>>, entityType: string, truth: Truth,
                                 lo: real, hi: real)
    requires lo <= hi
    ensures var low, high := At(db, text, fts, entityType, truth, lo), At(db, text, fts, entityType, truth, hi);
            high.tp <= low.tp && high.fp <= low.fp && high.recall <= low.recall
  {
    HigherRefines(db, text, fts, entityType, lo, hi, truth);
    FinerScoresLess(truth, LinkedPairs(db, text, fts, entityType, hi, truth),
                    LinkedPairs(db, text, fts, entityType, lo, truth));
  }

  // ---- sweep ----

  /** Resolution state deleted; atoms and the id counter stay. */
  function Reset(db: Db): Db {
    db.(bags := map[], members := {}, events := [], candidates := map[])
  }

  lemma ResetValid(db: Db)
    ensures Valid(Reset(db)) && forall a :: Free(Reset(db), a)
  {}

  lemma ResetCandidates(db: Db, now: Db, text: Text, fts: map<int, seq<int>>, entityType: string, keys: seq<string>,
                        t: real)
    requires now.atoms == db.atoms
    ensures MatchPairs(Reset(now), text, fts, entityType, keys, t) ==
              MatchPairs(Reset(db), text, fts, entityType, keys, t)
  {
    ResetValid(db);
    ResetValid(now);
    hide Comparable, Score, Valid;
    assert Blockables(Reset(now), text, fts, entityType, keys) == Blockables(Reset(db), text, fts, entityType, keys);
    forall p ensures Candidate(Reset(now), text, fts, entityType, keys, p) <==>
      Candidate(Reset(db), text, fts, entityType, keys, p) {}
    assert CandidateSet(Reset(now), text, fts, entityType, keys) ==
      CandidateSet(Reset(db), text, fts, entityType, keys);
    forall p ensures PairScore(Reset(now), text, RulesFor(entityType), p) ==
      PairScore(Reset(db), text, RulesFor(entityType), p) {}
  }

  /** After a scored run from a reset database the predicted pairs are the linked ones. */
  lemma RunPredictsLinked(start: Db, after: Db, text: Text, fts: map<int, seq<int>>, entityType: string, t: real,
                          edges: seq<MatchEdge>, groups: seq<set<int>>, clusters: nat, truth: Truth)
    requires Valid(start) && forall a :: Free(start, a)
    requires Resolved(start, after, text, fts, entityType, BlockKeys(entityType, []), t, edges, groups, clusters)
    ensures PredictedPairs(after, entityType, truth) == LinkedPairs(start, text, fts, entityType, t, truth)
  {
    hide MatchPairs, Resolved, Valid, BlockKeys, Predicted, Linked;
    forall p | p in AllPairs(truth)
      ensures Predicted(after, entityType, p) <==>
                Linked(MatchPairs(start, text, fts, entityType, BlockKeys(entityType, []), t), p.0, p.1)
    {
      var x, y := p.0, p.1;
      assert p == (x, y);
      RunPredicts(start, after, text, fts, entityType, t, edges, groups, clusters, x, y);
    }
  }

  lemma RunPredicts(start: Db, after: Db, text: Text, fts: map<int, seq<int>>, entityType: string, t: real,
                    edges: seq<MatchEdge>, groups: seq<set<int>>, clusters: nat, x: int, y: int)
    requires Valid(start) && (forall a :: Free(start, a)) && x != y
    requires Resolved(start, after, text, fts, entityType, BlockKeys(entityType, []), t, edges, groups, clusters)
    ensures Predicted(after, entityType, (x, y)) <==>
              Linked(MatchPairs(start, text, fts, entityType, BlockKeys(entityType, []), t), x, y)
  {
    var keys := BlockKeys(entityType, []);
    var pairs := MatchPairs(start, text, fts, entityType, keys, t);
    SameAtoms(start, after, groups);
    MatchEndsTyped(start, text, fts, entityType, keys, t);
    hide MatchPairs, Resolved, Valid, SameBag, BlockKeys;
    if Typed(start, entityType, x) && Typed(start, entityType, y) {
      ScoredPartition(start, after, text, fts, entityType, keys, t, edges, groups, clusters, x, y);
    } else if Linked(pairs, x, y) {
      LinkedTyped(start, entityType, pairs, x, y);
    }
  }

  /** Raising the threshold recovers no more perturbations of any mutation, and
      merges no more hard negatives: of two runs over the same reset atoms, the
      stricter one's findings are among the other's. */
  lemma MutationsFallWithThreshold(db: Db, text: Text, fts: map<int, seq<int>>, entityType: string, lo: real, hi: real,
                                   low: Db, high: Db, e0: seq<MatchEdge>, e1: seq<MatchEdge>, g0: seq<set<int>>,
                                   g1: seq<set<int>>, c0: nat, c1: nat, truth: Truth, labels: Labels, mutation: string)
    requires lo <= hi && labels.Keys <= truth.Keys
    requires Resolved(Reset(db), low, text, fts, entityType, BlockKeys(entityType, []), lo, e0, g0, c0)
    requires Resolved(Reset(db), high, text, fts, entityType, BlockKeys(entityType, []), hi, e1, g1, c1)
    ensures Recovered(labels.Keys, high, entityType, truth, labels, mutation) <=
              Recovered(labels.Keys, low, entityType, truth, labels, mutation)
    ensures FalselyMerged(labels.Keys, high, entityType, labels) <= FalselyMerged(labels.Keys, low, entityType, labels)
  {
    var keys := BlockKeys(entityType, []);
    ResetValid(db);
    FewerMatches(Reset(db), text, fts, entityType, keys, lo, hi);
    forall x, y | x != y && Predicted(high, entityType, (x, y)) ensures Predicted(low, entityType, (x, y)) {
      hide MatchPairs, Resolved, Valid, BlockKeys, Predicted, Linked, Reset;
      RunPredicts(Reset(db), low, text, fts, entityType, lo, e0, g0, c0, x, y);
      RunPredicts(Reset(db), high, text, fts, entityType, hi, e1, g1, c1, x, y);
      LinkedMonotone(MatchPairs(Reset(db), text, fts, entityType, keys, hi),
                     MatchPairs(Reset(db), text, fts, entityType, keys, lo), x, y);
    }
    hide Resolved, Valid, Predicted;
  }

  lemma FewerMatches(db: Db, text: Text, fts: map<int, seq<int>>, entityType: string, keys: seq<string>, lo: real,
                     hi: real)
    requires lo <= hi
    ensures MatchPairs(db, text, fts, entityType, keys, hi) <= MatchPairs(db, text, fts, entityType, keys, lo)
  {}

  lemma SameAtoms(start: Db, after: Db, groups: seq<set<int>>)
    requires Bagged(start, after, groups)
    ensures after.atoms == start.atoms
  {}

  lemma MatchEndsTyped(db: Db, text: Text, fts: map<int, seq<int>>, entityType: string, keys: seq<string>, t: real)
    ensures forall a, b | (a, b) in MatchPairs(db, text, fts, entityType, keys, t) ::
              Typed(db, entityType, a) && Typed(db, entityType, b)
  {
    CandidateEnds(db, text, fts, entityType, keys);
    hide CandidateSet, PairScore;
  }

  lemma LinkedTyped(db: Db, entityType: string, pairs: set<Edge>, x: int, y: int)
    requires forall a, b | (a, b) in pairs :: Typed(db, entityType, a) && Typed(db, entityType, b)
    requires x != y && Linked(pairs, x, y)
    ensures Typed(db, entityType, x) && Typed(db, entityType, y)
  {
    hide Typed;
    var p :| ChainFromTo(pairs, p, x, y);
    var n := |p|;
    assert n >= 2;
    assert Joined(pairs, p[0], p[1]);
    assert Joined(pairs, p[n - 2], p[n - 2 + 1]);
  }

  /** The sweep's answers: at each threshold, the metrics of that threshold. */
  ghost predicate IsSweep(db: Db, text: Text, fts: map<int, seq<int>>, entityType: string, truth: Truth,
                          results: seq<(real, Metrics)>)
  {
    forall i | 0 <= i < |results| :: results[i].1 == At(Reset(db), text, fts, entityType, truth, results[i].0)
  }

  /** Why a sweep over these thresholds fails, if it does: a threshold outside
      [0, 1], or a type without comparators that has atoms to resolve, whichever
      the first run to fail meets. */
  ghost function SweepError(db: Db, entityType: string, thresholds: seq<real>): Option<Error> {
    if thresholds != [] && 0.0 <= thresholds[0] <= 1.0 && Unscorable(db, entityType) then Some(UnknownType(entityType))
    else if exists t :: t in thresholds && !(0.0 <= t <= 1.0) then Some(BadThreshold)
    else None
  }

  ghost predicate Unscorable(db: Db, entityType: string) {
    ScoringSpec(entityType).None? && exists a :: Unresolved(db, entityType, a)
  }

  /** `sweep`: reset, resolve, evaluate, once per threshold. */
  method Sweep(resolver: EntityResolver, entityType: string, truth: Truth, thresholds: seq<real>)
    returns (r: Result<seq<(real, Metrics)>, Error>)
    requires Valid(resolver.db)
    modifies resolver
    ensures Valid(resolver.db) && resolver.db.atoms == old(resolver.db.atoms)
    ensures r.Ok? ==> |r.value| == |thresholds| && forall i | 0 <= i < |thresholds| :: r.value[i].0 == thresholds[i]
    ensures r.Ok? ==> IsSweep(old(resolver.db), resolver.text, resolver.fts, entityType, truth, r.value)
    ensures r.Err? <==> SweepError(Reset(old(resolver.db)), entityType, thresholds).Some?
    ensures r.Err? ==> Some(r.error) == SweepError(Reset(old(resolver.db)), entityType, thresholds)
  {
    hide Valid, Resolved, MatchPairs, CandidateSet, MetricsOf, PredictedPairs, LinkedPairs, GroupLogs, Recorded,
         Unresolved, ScoringSpec, BlockKeys;
    ghost var start := resolver.db;
    var results: seq<(real, Metrics)> := [];
    for n := 0 to |thresholds|
      invariant Valid(resolver.db) && resolver.db.atoms == start.atoms
      invariant |results| == n && forall i | 0 <= i < n :: results[i].0 == thresholds[i]
      invariant IsSweep(start, resolver.text, resolver.fts, entityType, truth, results)
      invariant forall i | 0 <= i < n :: 0.0 <= thresholds[i] <= 1.0
      invariant n > 0 ==> !Unscorable(Reset(start), entityType)
    {
      var t := thresholds[n];
      ResetValid(resolver.db);
      ghost var reset := Reset(resolver.db);
      resolver.db := Reset(resolver.db);
      var s, edges, groups := resolver.ResolveScored(entityType, [], t);
      SameUnresolved(start, reset, entityType);
      if s.Err? {
        assert t in thresholds;
        return Err(s.error);
      }
      AtomsKept(reset, resolver.db, resolver.text, resolver.fts, entityType, BlockKeys(entityType, []), t, edges,
                groups, s.value.clusters);
      RunPredictsLinked(reset, resolver.db, resolver.text, resolver.fts, entityType, t, edges, groups, s.value.clusters,
                        truth);
      SameLinkedPairs(start, reset, resolver.text, resolver.fts, entityType, t, truth);
      var metrics := Evaluate(resolver.db, entityType, truth);
      results := results + [(t, metrics)];
    }
    return Ok(results);
  }

  /** After a reset, the atoms alone say what is unresolved. */
  lemma SameUnresolved(start: Db, reset: Db, entityType: string)
    requires reset.atoms == start.atoms && reset == Reset(reset)
    ensures Unscorable(reset, entityType) <==> Unscorable(Reset(start), entityType)
  {
    if a :| Unresolved(reset, entityType, a) { assert Unresolved(Reset(start), entityType, a); }
    if a :| Unresolved(Reset(start), entityType, a) { assert Unresolved(reset, entityType, a); }
  }

  lemma AtomsKept(before: Db, after: Db, text: Text, fts: map<int, seq<int>>, entityType: string, keys: seq<string>,
                  t: real, edges: seq<MatchEdge>, groups: seq<set<int>>, clusters: nat)
    requires Resolved(before, after, text, fts, entityType, keys, t, edges, groups, clusters)
    ensures after.atoms == before.atoms
  {}

  lemma SameLinkedPairs(start: Db, reset: Db, text: Text, fts: map<int, seq<int>>, entityType: string, t: real,
                        truth: Truth)
    requires reset.atoms == start.atoms && reset == Reset(reset)
    ensures LinkedPairs(reset, text, fts, entityType, t, truth) ==
              LinkedPairs(Reset(start), text, fts, entityType, t, truth)
  {
    ResetCandidates(start, reset, text, fts, entityType, BlockKeys(entityType, []), t);
  }

  // ---- Choosing a threshold ----

  ghost predicate Passes(results: seq<(real, Metrics)>, floor: real, i: int) {
    0 <= i < |results| && results[i].1.precision >= floor
  }

  /** Among the first n results none is more precise, and an equally precise one has no higher threshold. */
  ghost predicate MostPrecise(results: seq<(real, Metrics)>, k: int, n: nat)
    requires 0 <= k < |results| && n <= |results|
  {
    forall i | 0 <= i < n :: results[i].1.precision < results[k].1.precision ||
      (results[i].1.precision == results[k].1.precision && results[i].0 <= results[k].0)
  }

  /** Among the first n results none has a greater F1, and one with the same F1 has no higher threshold. */
  ghost predicate GreatestF1(results: seq<(real, Metrics)>, k: int, n: nat)
    requires 0 <= k < |results| && n <= |results|
  {
    forall i | 0 <= i < n :: results[i].1.f1 < results[k].1.f1 ||
      (results[i].1.f1 == results[k].1.f1 && results[i].0 <= results[k].0)
  }

  datatype ChoiceError = NoResults

  /** `calibrate_threshold`: the lowest threshold that holds the precision floor;
      if none does, the most precise one, ties to the higher threshold. */
  method CalibrateThreshold(results: seq<(real, Metrics)>, floor: real) returns (r: Result<real, ChoiceError>)
    ensures r.Err? <==> results == []
    ensures r.Ok? && (exists i :: Passes(results, floor, i)) ==>
              (exists i :: Passes(results, floor, i) && results[i].0 == r.value) &&
              forall i | Passes(results, floor, i) :: r.value <= results[i].0
    ensures r.Ok? && !(exists i :: Passes(results, floor, i)) ==>
              exists k :: 0 <= k < |results| && results[k].0 == r.value && MostPrecise(results, k, |results|)
  {
    if results == [] { return Err(NoResults); }
    var best: int := -1;
    for n := 0 to |results|
      invariant best == -1 || (0 <= best < n && Passes(results, floor, best))
      invariant best == -1 ==> forall i | 0 <= i < n :: !Passes(results, floor, i)
      invariant best != -1 ==> forall i | 0 <= i < n && Passes(results, floor, i) :: results[best].0 <= results[i].0
    {
      if results[n].1.precision >= floor {
        assert Passes(results, floor, n);
        if best == -1 || results[n].0 < results[best].0 ||
           (results[n].0 == results[best].0 && results[n].1.f1 > results[best].1.f1) {
          best := n;
        }
      }
    }
    if best != -1 { return Ok(results[best].0); }
    best := 0;
    for n := 1 to |results|
      invariant 0 <= best < n
      invariant MostPrecise(results, best, n)
    {
      if results[n].1.precision > results[best].1.precision ||
         (results[n].1.precision == results[best].1.precision && results[n].0 > results[best].0) {
        best := n;
      }
    }
    return Ok(results[best].0);
  }

  /** `recommend_threshold`: the highest F1, ties to the higher threshold. */
  method RecommendThreshold(results: seq<(real, Metrics)>) returns (r: Result<real, ChoiceError>)
    ensures r.Err? <==> results == []
    ensures r.Ok? ==> exists k :: 0 <= k < |results| && results[k].0 == r.value && GreatestF1(results, k, |results|)
  {
    if results == [] { return Err(NoResults); }
    var best := 0;
    for n := 1 to |results|
      invariant 0 <= best < n
      invariant GreatestF1(results, best, n)
    {
      if results[n].1.f1 > results[best].1.f1 ||
         (results[n].1.f1 == results[best].1.f1 && results[n].0 > results[best].0) {
        best := n;
      }
    }
    return Ok(results[best].0);
  }

  /** On a sweep, the lowest threshold that holds the precision floor has the
      greatest recall among all that hold it. */
  lemma LowestPassingHasBestRecall(db: Db, text: Text, fts: map<int, seq<int>>, entityType: string, truth: Truth,
                                   results: seq<(real, Metrics)>, floor: real, chosen: real)
    requires IsSweep(db, text, fts, entityType, truth, results)
    requires exists i :: Passes(results, floor, i) && results[i].0 == chosen
    requires forall i | Passes(results, floor, i) :: chosen <= results[i].0
    ensures At(Reset(db), text, fts, entityType, truth, chosen).precision >= floor
    ensures forall i | Passes(results, floor, i) ::
              results[i].1.recall <= At(Reset(db), text, fts, entityType, truth, chosen).recall
  {
    hide At;
    forall i | Passes(results, floor, i)
      ensures results[i].1.recall <= At(Reset(db), text, fts, entityType, truth, chosen).recall
    {
      RecallFallsWithThreshold(Reset(db), text, fts, entityType, truth, chosen, results[i].0);
    }
  }

  /** Sweep, then calibrate: the recommended operating point, end to end. */
  method SweepAndCalibrate(resolver: EntityResolver, entityType: string, truth: Truth, thresholds: seq<real>,
                           floor: real)
    returns (r: Result<real, Error>)
    requires Valid(resolver.db) && thresholds != []
    modifies resolver
    ensures r.Ok? ==>
              var metrics := (t: real) => At(Reset(old(resolver.db)), resolver.text, resolver.fts, entityType, truth,
                                             t);
              r.value in thresholds &&
              ((exists t :: t in thresholds && metrics(t).precision >= floor) ==>
                metrics(r.value).precision >= floor &&
                forall t | t in thresholds && metrics(t).precision >= floor ::
                  metrics(t).recall <= metrics(r.value).recall)
    ensures r.Err? <==> SweepError(Reset(old(resolver.db)), entityType, thresholds).Some?
    ensures r.Err? ==> Some(r.error) == SweepError(Reset(old(resolver.db)), entityType, thresholds)
  {
    hide At, Valid;
    ghost var start := resolver.db;
    var swept := Sweep(resolver, entityType, truth, thresholds);
    if swept.Err? { return Err(swept.error); }
    var results := swept.value;
    var chosen := CalibrateThreshold(results, floor);
    ghost var i0 :| 0 <= i0 < |results| && results[i0].0 == chosen.value;
    assert results[i0].0 == thresholds[i0];
    forall t | t in thresholds && At(Reset(start), resolver.text, resolver.fts, entityType, truth, t).precision >= floor
      ensures exists i :: Passes(results, floor, i) && results[i].0 == t
    {
      var i :| 0 <= i < |thresholds| && thresholds[i] == t;
      assert Passes(results, floor, i);
    }
    if exists i :: Passes(results, floor, i) {
      LowestPassingHasBestRecall(start, resolver.text, resolver.fts, entityType, truth, results, floor, chosen.value);
    }
    return Ok(chosen.value);
  }
}
