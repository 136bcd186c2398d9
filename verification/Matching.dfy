/** The block and score stages: candidate pairs from blocking keys and full-text
    hits, and the weighted field similarity of a pair. */
module Matching {
  import opened Wrappers
  import opened Collections

  /** Python's text functions, taken as given: `str.lower`, `str.strip`, the
      tokenizer's regular expression and `float(...)`. */
  datatype Text = Text(
    lower: string -> string, strip: string -> string,
    tokens: string -> set<string>, number: string -> Option<real>)
  {
    function Normalize(s: string): string { strip(lower(s)) }
  }

  type Props = map<string, string>

  // ---- Comparators ----

  datatype Comparator = Exact | NormEqual | TokenJaccard | PathSuffix | NumericClose {
    function Compare(text: Text, a: string, b: string): (r: real)
      ensures 0.0 <= r <= 1.0
    {
      match this
      case Exact => if a == b then 1.0 else 0.0
      case NormEqual => if text.Normalize(a) == text.Normalize(b) then 1.0 else 0.0
      case TokenJaccard =>
        var (ta, tb) := (text.tokens(a), text.tokens(b));
        if ta + tb == {} then 0.0 else
          SubsetSize(ta * tb, ta + tb);
          Ratio(|ta * tb|, |ta + tb|)
      case PathSuffix => ComparePaths(text, Components(a), Components(b))
      case NumericClose =>
        if text.number(a).None? || text.number(b).None? then 0.0
        else Closeness(text.number(a).value, text.number(b).value)
    }
  }

  function Ratio(n: nat, d: nat): (r: real)
    requires n <= d && d > 0
    ensures 0.0 <= r <= 1.0
  {
    n as real / d as real
  }

  function Abs(x: real): real { if x < 0.0 then -x else x }

  function Closeness(a: real, b: real): (r: real)
    ensures 0.0 <= r <= 1.0
  {
    if a == b then 1.0
    else
      var scale := if Abs(a) > Abs(b) then Abs(a) else Abs(b);
      var r := 1.0 - Abs(a - b) / scale;
      if r < 0.0 then 0.0 else r
  }

  /** The non-empty parts between `/` and `\`. */
  function Components(s: string): (parts: seq<string>) {
    Split(s, "")
  }

  function Split(s: string, part: string): seq<string>
    decreases |s|
  {
    var done := if part == "" then [] else [part];
    if s == "" then done
    else if s[0] == '/' || s[0] == '\\' then done + Split(s[1..], "")
    else Split(s[1..], part + [s[0]])
  }

  function ComparePaths(text: Text, ca: seq<string>, cb: seq<string>): (r: real)
    ensures 0.0 <= r <= 1.0
  {
    if ca == [] || cb == [] then 0.0
    else if text.lower(ca[|ca| - 1]) == text.lower(cb[|cb| - 1]) then 1.0
    else Ratio(EqualTail(text, ca, cb), if |ca| > |cb| then |ca| else |cb|)
  }

  function EqualTail(text: Text, ca: seq<string>, cb: seq<string>): (n: nat)
    ensures n <= |ca| && n <= |cb|
  {
    if ca == [] || cb == [] || text.lower(ca[|ca| - 1]) != text.lower(cb[|cb| - 1]) then 0
    else 1 + EqualTail(text, ca[..|ca| - 1], cb[..|cb| - 1])
  }

  // ---- Weighted scoring ----

  datatype FieldRule = FieldRule(field: string, comparator: Comparator, weight: real)

  function ScoringSpec(entityType: string): (spec: Option<seq<FieldRule>>)
    ensures spec.Some? ==> forall rule | rule in spec.value :: rule.weight > 0.0
  {
    if entityType == "binaries" then Some([
      FieldRule("sha256", Exact, 3.0), FieldRule("executable_name", NormEqual, 2.0),
      FieldRule("path", PathSuffix, 1.0), FieldRule("arch", Exact, 0.5)])
    else if entityType == "daemons" then Some([
      FieldRule("label", NormEqual, 3.0), FieldRule("program", PathSuffix, 2.0),
      FieldRule("plist_path", PathSuffix, 1.0)])
    else if entityType == "frameworks" then Some([
      FieldRule("bundle_id", NormEqual, 3.0), FieldRule("name", NormEqual, 2.0),
      FieldRule("path", PathSuffix, 1.0), FieldRule("version", Exact, 0.5)])
    else if entityType == "kexts" then Some([
      FieldRule("bundle_id", NormEqual, 3.0), FieldRule("name", NormEqual, 2.0),
      FieldRule("version", Exact, 1.0)])
    else if entityType == "files" then Some([
      FieldRule("sha256", Exact, 3.0), FieldRule("filename", NormEqual, 1.5),
      FieldRule("path", PathSuffix, 1.0), FieldRule("size", NumericClose, 0.5),
      FieldRule("file_type", Exact, 0.5)])
    else None
  }

  predicate Both(rule: FieldRule, a: Props, b: Props) { rule.field in a && rule.field in b }

  /** Total weight of the fields both atoms carry. */
  ghost function TotalWeight(rules: seq<FieldRule>, a: Props, b: Props): real {
    if rules == [] then 0.0
    else (if Both(rules[0], a, b) then rules[0].weight else 0.0) + TotalWeight(rules[1..], a, b)
  }

  ghost function Part(text: Text, rule: FieldRule, a: Props, b: Props): real {
    if Both(rule, a, b) then rule.weight * rule.comparator.Compare(text, a[rule.field], b[rule.field]) else 0.0
  }

  ghost function WeightedSum(text: Text, rules: seq<FieldRule>, a: Props, b: Props): real {
    if rules == [] then 0.0 else Part(text, rules[0], a, b) + WeightedSum(text, rules[1..], a, b)
  }

  /** The weighted mean over the shared fields; 0 when there is none. */
  ghost function Score(text: Text, rules: seq<FieldRule>, a: Props, b: Props): real {
    var total := TotalWeight(rules, a, b);
    if total > 0.0 then WeightedSum(text, rules, a, b) / total else 0.0
  }

  ghost predicate Positive(rules: seq<FieldRule>) { forall rule | rule in rules :: rule.weight > 0.0 }

  lemma {:induction false} SumBounds(text: Text, rules: seq<FieldRule>, a: Props, b: Props)
    requires Positive(rules)
    ensures 0.0 <= WeightedSum(text, rules, a, b) <= TotalWeight(rules, a, b)
  {
    hide Comparator.Compare;
    if rules != [] {
      SumBounds(text, rules[1..], a, b);
      PartBounds(text, rules[0], a, b);
    }
  }

  lemma PartBounds(text: Text, rule: FieldRule, a: Props, b: Props)
    requires rule.weight > 0.0
    ensures 0.0 <= Part(text, rule, a, b) <= if Both(rule, a, b) then rule.weight else 0.0
  {
    hide Comparator.Compare;
    if Both(rule, a, b) {
      var sub := rule.comparator.Compare(text, a[rule.field], b[rule.field]);
      var part := rule.weight * sub;
      ProductBounds(rule.weight, sub);
      assert Part(text, rule, a, b) == part;
    }
  }

  lemma ProductBounds(w: real, x: real)
    requires w > 0.0 && 0.0 <= x <= 1.0
    ensures 0.0 <= w * x <= w
  {
    assert w * (1.0 - x) >= 0.0;
  }

  /** A score is a similarity: between 0 and 1. */
  lemma ScoreBounds(text: Text, rules: seq<FieldRule>, a: Props, b: Props)
    requires Positive(rules)
    ensures 0.0 <= Score(text, rules, a, b) <= 1.0
  {
    SumBounds(text, rules, a, b);
    if TotalWeight(rules, a, b) > 0.0 {
      DivideBounds(WeightedSum(text, rules, a, b), TotalWeight(rules, a, b));
    }
  }

  lemma DivideBounds(n: real, d: real)
    requires 0.0 <= n <= d && d > 0.0
    ensures 0.0 <= n / d <= 1.0
  {
    assert n / d * d == n;
  }

  lemma CompareSymmetric(text: Text, c: Comparator, a: string, b: string)
    ensures c.Compare(text, a, b) == c.Compare(text, b, a)
  {
    match c
    case Exact =>
    case NormEqual =>
    case TokenJaccard =>
      assert text.tokens(a) * text.tokens(b) == text.tokens(b) * text.tokens(a);
      assert text.tokens(a) + text.tokens(b) == text.tokens(b) + text.tokens(a);
    case PathSuffix => EqualTailSymmetric(text, Components(a), Components(b));
    case NumericClose =>
      if text.number(a).Some? && text.number(b).Some? {
        assert Abs(text.number(a).value - text.number(b).value) == Abs(text.number(b).value - text.number(a).value);
      }
  }

  lemma {:induction false} EqualTailSymmetric(text: Text, ca: seq<string>, cb: seq<string>)
    ensures EqualTail(text, ca, cb) == EqualTail(text, cb, ca)
    decreases |ca|
  {
    if ca != [] && cb != [] { EqualTailSymmetric(text, ca[..|ca| - 1], cb[..|cb| - 1]); }
  }

  /** Which atom of a pair comes first does not change its score. */
  lemma {:induction false} ScoreSymmetric(text: Text, rules: seq<FieldRule>, a: Props, b: Props)
    ensures TotalWeight(rules, a, b) == TotalWeight(rules, b, a)
    ensures WeightedSum(text, rules, a, b) == WeightedSum(text, rules, b, a)
    ensures Score(text, rules, a, b) == Score(text, rules, b, a)
  {
    hide Comparator.Compare;
    if rules != [] {
      ScoreSymmetric(text, rules[1..], a, b);
      if Both(rules[0], a, b) {
        CompareSymmetric(text, rules[0].comparator, a[rules[0].field], b[rules[0].field]);
      }
    }
  }

  lemma {:induction false} OneMoreRule(text: Text, rules: seq<FieldRule>, r: FieldRule, a: Props, b: Props)
    ensures TotalWeight(rules + [r], a, b) == TotalWeight(rules, a, b) + if Both(r, a, b) then r.weight else 0.0
    ensures WeightedSum(text, rules + [r], a, b) == WeightedSum(text, rules, a, b) + Part(text, r, a, b)
    decreases |rules|
  {
    if rules == [] {
      assert rules + [r] == [r];
    } else {
      assert (rules + [r])[1..] == rules[1..] + [r];
      OneMoreRule(text, rules[1..], r, a, b);
    }
  }

  /** One entry per shared field: what its rule makes of the values. */
  ghost function FeaturesOf(text: Text, rules: seq<FieldRule>, a: Props, b: Props): map<string, real> {
    if rules == [] then map[]
    else
      var (before, r) := (FeaturesOf(text, rules[..|rules| - 1], a, b), rules[|rules| - 1]);
      if Both(r, a, b) then before[r.field := r.comparator.Compare(text, a[r.field], b[r.field])] else before
  }

  lemma {:induction false} NoFeatures(text: Text, rules: seq<FieldRule>, a: Props, b: Props)
    requires Positive(rules)
    ensures TotalWeight(rules, a, b) >= 0.0 &&
            (TotalWeight(rules, a, b) == 0.0 ==> FeaturesOf(text, rules, a, b) == map[])
  {
    hide Comparator.Compare;
    if rules != [] {
      var (before, r) := (rules[..|rules| - 1], rules[|rules| - 1]);
      NoFeatures(text, before, a, b);
      assert rules == before + [r];
      OneMoreRule(text, before, r, a, b);
    }
  }

  /** `score_pair` once the entity type has a spec. */
  method ScorePair(text: Text, rules: seq<FieldRule>, a: Props, b: Props)
    returns (score: real, features: map<string, real>)
    ensures score == Score(text, rules, a, b)
    ensures Positive(rules) ==> features == FeaturesOf(text, rules, a, b)
  {
    hide Comparator.Compare;
    var numerator, denominator := 0.0, 0.0;
    features := map[];
    for n := 0 to |rules|
      invariant numerator == WeightedSum(text, rules[..n], a, b)
      invariant denominator == TotalWeight(rules[..n], a, b)
      invariant features == FeaturesOf(text, rules[..n], a, b)
    {
      var rule := rules[n];
      OneMoreRule(text, rules[..n], rule, a, b);
      assert rules[..n + 1] == rules[..n] + [rule];
      if rule.field in a && rule.field in b {
        var sub := rule.comparator.Compare(text, a[rule.field], b[rule.field]);
        features := features[rule.field := sub];
        numerator := numerator + rule.weight * sub;
        denominator := denominator + rule.weight;
      }
    }
    assert rules[..|rules|] == rules;
    if denominator > 0.0 { return numerator / denominator, features; }
    if Positive(rules) { NoFeatures(text, rules, a, b); }
    return 0.0, map[];
  }

  // ---- Blocking ----

  /** One atom as blocking sees it. */
  datatype Blockable = Blockable(bucket: Option<string>, hits: seq<int>)

  type Pair = (int, int)

  function Ordered(a: int, b: int): Pair { if a < b then (a, b) else (b, a) }

  const MAX_BUCKET := 200

  ghost function Bucket(atoms: map<int, Blockable>, key: string): set<int> {
    set a | a in atoms && atoms[a].bucket == Some(key)
  }

  /** The first `MAX_BUCKET` other atoms of the type among the full-text hits. */
  function Kept(atoms: map<int, Blockable>, self: int, hits: seq<int>, room: nat): (kept: seq<int>)
    ensures forall h | h in kept :: h in hits && h in atoms && h != self
    ensures |kept| <= room
    decreases |hits|
  {
    if room == 0 || hits == [] then []
    else if hits[0] == self || hits[0] !in atoms then Kept(atoms, self, hits[1..], room)
    else [hits[0]] + Kept(atoms, self, hits[1..], room - 1)
  }

  /** Two atoms are compared when they share a bucket of at most 200 atoms, or one
      is among the other's first 200 full-text hits that count. */
  ghost predicate Comparable(atoms: map<int, Blockable>, a: int, b: int) {
    a in atoms && b in atoms && a < b &&
    ((atoms[a].bucket.Some? && atoms[a].bucket == atoms[b].bucket &&
      |Bucket(atoms, atoms[a].bucket.value)| <= 200) ||
     b in Kept(atoms, a, atoms[a].hits, 200) || a in Kept(atoms, b, atoms[b].hits, 200))
  }

  /** Blocking values joined by `|`; no key at all when every value is blank. */
  function BucketKey(text: Text, props: Props, keys: seq<string>): Option<string> {
    var parts := seq(|keys|, i requires 0 <= i < |keys| =>
                   text.Normalize(if keys[i] in props then props[keys[i]] else ""));
    if forall i | 0 <= i < |parts| :: parts[i] == "" then None else Some(JoinParts(parts))
  }

  function JoinParts(parts: seq<string>): string {
    if parts == [] then "" else if |parts| == 1 then parts[0] else parts[0] + "|" + JoinParts(parts[1..])
  }

  ghost predicate Filled(atoms: map<int, Blockable>, seen: set<int>, buckets: map<string, seq<int>>) {
    (forall a | a in seen && a in atoms && atoms[a].bucket.Some? :: atoms[a].bucket.value in buckets) &&
    forall k | k in buckets ::
      Distinct(buckets[k]) &&
      forall a :: a in buckets[k] <==> a in seen && a in atoms && atoms[a].bucket == Some(k)
  }

  /** Mechanism A, first half: atoms in database order dropped into buckets. */
  method FillBuckets(atoms: map<int, Blockable>, order: seq<int>) returns (buckets: map<string, seq<int>>)
    requires Distinct(order) && Elements(order) == atoms.Keys
    ensures Filled(atoms, atoms.Keys, buckets)
  {
    buckets := map[];
    for n := 0 to |order|
      invariant Filled(atoms, Elements(order[..n]), buckets)
    {
      var a := order[n];
      assert order[..n + 1] == order[..n] + [a];
      assert a in Elements(order);
      AppendElements(order[..n], a);
      if atoms[a].bucket.Some? {
        var k := atoms[a].bucket.value;
        var ids := if k in buckets then buckets[k] else [];
        AppendElements(ids, a);
        assert a !in ids;
        buckets := buckets[k := ids + [a]];
      }
    }
    assert order[..|order|] == order;
  }

  /** All pairs of one bucket. */
  method PairUp(ids: seq<int>) returns (pairs: set<Pair>)
    requires Distinct(ids)
    ensures forall p :: p in pairs <==> p.0 in ids && p.1 in ids && p.0 < p.1
  {
    pairs := {};
    for i := 0 to |ids|
      invariant forall p | p in pairs :: p.0 in ids && p.1 in ids && p.0 < p.1
      invariant forall x, y | 0 <= x < y < |ids| && x < i :: Ordered(ids[x], ids[y]) in pairs
    {
      for j := i + 1 to |ids|
        invariant forall p | p in pairs :: p.0 in ids && p.1 in ids && p.0 < p.1
        invariant forall x, y | 0 <= x < y < |ids| && (x < i || (x == i && y < j)) :: Ordered(ids[x], ids[y]) in pairs
      {
        pairs := pairs + {Ordered(ids[i], ids[j])};
      }
    }
    forall p: Pair | p.0 in ids && p.1 in ids && p.0 < p.1 ensures p in pairs {
      var x :| 0 <= x < |ids| && ids[x] == p.0;
      var y :| 0 <= y < |ids| && ids[y] == p.1;
      assert Ordered(ids[if x < y then x else y], ids[if x < y then y else x]) == p;
    }
  }

  ghost predicate SameBucket(atoms: map<int, Blockable>, p: Pair) {
    p.0 in atoms && p.1 in atoms && p.0 < p.1 && atoms[p.0].bucket.Some? && atoms[p.0].bucket == atoms[p.1].bucket &&
    |Bucket(atoms, atoms[p.0].bucket.value)| <= MAX_BUCKET
  }

  ghost predicate Hit(atoms: map<int, Blockable>, a: int, p: Pair) {
    a in atoms && exists h :: h in Kept(atoms, a, atoms[a].hits, MAX_BUCKET) && p == Ordered(a, h)
  }

  /** Every bucket of at most `MAX_BUCKET` atoms yields all its pairs; a larger
      one yields none. */
  method BucketPairs(atoms: map<int, Blockable>, buckets: map<string, seq<int>>) returns (pairs: set<Pair>)
    requires Filled(atoms, atoms.Keys, buckets)
    ensures forall p :: p in pairs <==> SameBucket(atoms, p)
  {
    pairs := {};
    var keys := buckets.Keys;
    while keys != {}
      invariant keys <= buckets.Keys
      invariant forall p :: p in pairs <==> SameBucket(atoms, p) && atoms[p.0].bucket.value !in keys
      decreases keys
    {
      var k :| k in keys;
      var ids := buckets[k];
      DistinctElements(ids);
      forall a ensures a in Elements(ids) <==> a in Bucket(atoms, k) {}
      assert Elements(ids) == Bucket(atoms, k);
      if 2 <= |ids| <= MAX_BUCKET {
        var more := PairUp(ids);
        pairs := pairs + more;
      } else {
        forall p | SameBucket(atoms, p) && atoms[p.0].bucket.value == k ensures false {
          TwoMembers(Bucket(atoms, k), p.0, p.1);
        }
      }
      keys := keys - {k};
    }
  }

  /** Mechanism B: each atom with its kept full-text hits. */
  method HitPairs(atoms: map<int, Blockable>, order: seq<int>) returns (pairs: set<Pair>)
    requires Elements(order) == atoms.Keys
    ensures forall p :: p in pairs <==> exists a :: Hit(atoms, a, p)
  {
    pairs := {};
    for n := 0 to |order|
      invariant forall p :: p in pairs <==> exists i :: 0 <= i < n && Hit(atoms, order[i], p)
    {
      var a := order[n];
      assert a in Elements(order);
      var kept := Kept(atoms, a, atoms[a].hits, MAX_BUCKET);
      var more := set h | h in kept :: Ordered(a, h);
      forall p ensures p in more <==> Hit(atoms, a, p) {}
      ghost var before := pairs;
      pairs := pairs + more;
      forall p ensures p in pairs <==> exists i :: 0 <= i < n + 1 && Hit(atoms, order[i], p) {
        if p in before {
          var i :| 0 <= i < n && Hit(atoms, order[i], p);
          assert 0 <= i < n + 1;
        }
        if p in more { assert Hit(atoms, order[n], p); }
      }
    }
    forall p, a | Hit(atoms, a, p) ensures exists i :: 0 <= i < |order| && Hit(atoms, order[i], p) {
      assert a in Elements(order);
      var i :| 0 <= i < |order| && order[i] == a;
      assert Hit(atoms, order[i], p);
    }
  }

  /** `candidate_pairs`: exactly the comparable pairs, smaller id first. */
  method CandidatePairs(atoms: map<int, Blockable>, order: seq<int>) returns (pairs: set<Pair>)
    requires Distinct(order) && Elements(order) == atoms.Keys
    ensures forall p :: p in pairs <==> Comparable(atoms, p.0, p.1)
  {
    var buckets := FillBuckets(atoms, order);
    var a := BucketPairs(atoms, buckets);
    var b := HitPairs(atoms, order);
    pairs := a + b;
    forall p ensures p in pairs <==> Comparable(atoms, p.0, p.1) {
      if p in b {
        var x :| Hit(atoms, x, p);
        var h :| h in Kept(atoms, x, atoms[x].hits, MAX_BUCKET) && p == Ordered(x, h);
      }
      if Comparable(atoms, p.0, p.1) && !SameBucket(atoms, p) {
        if p.1 in Kept(atoms, p.0, atoms[p.0].hits, MAX_BUCKET) {
          assert p == Ordered(p.0, p.1);
          assert Hit(atoms, p.0, p);
        } else {
          assert p == Ordered(p.1, p.0);
          assert Hit(atoms, p.1, p);
        }
      }
    }
  }
}
