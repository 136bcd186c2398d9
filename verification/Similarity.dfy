/** What the comparators and the score mean: each comparator by the values it
    compares, the score by what agrees. */
module Similarity {
  import opened Wrappers
  import opened Collections
  import opened Matching

  // ---- Comparators ----

  /** Equality, raw and after normalizing: all or nothing. */
  lemma EqualOrNot(text: Text, a: string, b: string)
    ensures Exact.Compare(text, a, b) == 1.0 <==> a == b
    ensures Exact.Compare(text, a, b) == 0.0 <==> a != b
    ensures NormEqual.Compare(text, a, b) == 1.0 <==> text.strip(text.lower(a)) == text.strip(text.lower(b))
    ensures NormEqual.Compare(text, a, b) == 0.0 <==> text.strip(text.lower(a)) != text.strip(text.lower(b))
  {
  }

  /** The share of common tokens: 1 for equal, non-empty token sets only, 0 for
      sets with nothing in common only. */
  lemma TokenShare(text: Text, a: string, b: string)
    ensures var r := TokenJaccard.Compare(text, a, b);
            var (ta, tb) := (text.tokens(a), text.tokens(b));
            r * |ta + tb| as real == |ta * tb| as real && (r == 1.0 <==> ta == tb && ta != {}) &&
            (r == 0.0 <==> ta !! tb)
  {
    var (ta, tb) := (text.tokens(a), text.tokens(b));
    var (both, either) := (ta * tb, ta + tb);
    if either != {} {
      var n, d := |both| as real, |either| as real;
      SubsetSize(both, either);
      assert d > 0.0 && TokenJaccard.Compare(text, a, b) == n / d;
      QuotientExtremes(n, d);
      assert n / d * d == n;
      if n == d { SubsetWhole(both, either); }
      assert ta == tb ==> both == either;
      assert both == either ==> ta == tb;
      assert n == 0.0 <==> both == {};
      Apart(ta, tb);
    }
  }

  lemma Apart<T>(s: set<T>, t: set<T>)
    ensures s * t == {} <==> s !! t
  {
    if s * t == {} {
      forall x | x in s ensures x !in t {
        assert x in t ==> x in s * t;
      }
    } else {
      var x :| x in s * t;
      assert x in s && x in t;
    }
  }

  lemma SubsetWhole<T>(s: set<T>, t: set<T>)
    requires s <= t && |s| == |t|
    ensures s == t
  {
    assert t == s + (t - s);
  }

  /** Paths compare by their last components alone, whatever their case: the
      count of equal trailing components is only taken when it is zero. */
  lemma SameBasename(text: Text, a: string, b: string)
    ensures var (ca, cb) := (Components(a), Components(b));
            var same := ca != [] && cb != [] && text.lower(ca[|ca| - 1]) == text.lower(cb[|cb| - 1]);
            (PathSuffix.Compare(text, a, b) == 1.0 <==> same) && (PathSuffix.Compare(text, a, b) == 0.0 <==> !same)
  {
  }

  ghost function FromEnd(q: seq<string>, k: nat): string
    requires k < |q|
  {
    q[|q| - 1 - k]
  }

  /** That count: the longest common tail. */
  lemma {:induction false} LongestTail(text: Text, ca: seq<string>, cb: seq<string>)
    ensures var n := EqualTail(text, ca, cb);
            (forall k: nat | k < n :: text.lower(FromEnd(ca, k)) == text.lower(FromEnd(cb, k))) &&
            (n < |ca| && n < |cb| ==> text.lower(FromEnd(ca, n)) != text.lower(FromEnd(cb, n)))
    decreases |ca|
  {
    if ca != [] && cb != [] && text.lower(ca[|ca| - 1]) == text.lower(cb[|cb| - 1]) {
      var (da, db) := (ca[..|ca| - 1], cb[..|cb| - 1]);
      LongestTail(text, da, db);
      var n := EqualTail(text, da, db);
      hide EqualTail;
      forall k: nat | k < n + 1 ensures text.lower(FromEnd(ca, k)) == text.lower(FromEnd(cb, k)) {
        if k > 0 { assert FromEnd(ca, k) == FromEnd(da, k - 1) && FromEnd(cb, k) == FromEnd(db, k - 1); }
      }
      if n < |da| && n < |db| { assert FromEnd(ca, n + 1) == FromEnd(da, n) && FromEnd(cb, n + 1) == FromEnd(db, n); }
    }
  }

  /** A separator of either kind separates, wherever it stands; text without one is
      a component, unless it is empty. */
  lemma ComponentsApart(p: string, c: char, q: string)
    requires c == '/' || c == '\\'
    ensures Components(p + [c] + q) == Components(p) + Components(q)
  {
    SplitApart(p, c, q, "");
  }

  lemma {:induction false} SplitApart(p: string, c: char, q: string, part: string)
    requires c == '/' || c == '\\'
    ensures Split(p + [c] + q, part) == Split(p, part) + Split(q, "")
    decreases |p|
  {
    var s := p + [c] + q;
    if p == "" {
      assert s[1..] == q;
    } else {
      assert s[0] == p[0] && s[1..] == p[1..] + [c] + q;
      if p[0] == '/' || p[0] == '\\' {
        SplitApart(p[1..], c, q, "");
      } else {
        SplitApart(p[1..], c, q, part + [p[0]]);
      }
    }
  }

  lemma ComponentsOne(s: string)
    requires '/' !in s && '\\' !in s
    ensures Components(s) == if s == "" then [] else [s]
  {
    SplitOne(s, "");
    assert "" + s == s;
  }

  lemma {:induction false} SplitOne(s: string, part: string)
    requires '/' !in s && '\\' !in s
    ensures Split(s, part) == if part + s == "" then [] else [part + s]
    decreases |s|
  {
    if s == "" {
      assert part + s == part;
    } else {
      SplitOne(s[1..], part + [s[0]]);
      assert part + [s[0]] + s[1..] == part + s;
    }
  }

  /** Numbers: 1 when equal, 0 across zero, and else the smaller over the larger. */
  lemma CloseNumbers(a: real, b: real)
    ensures Closeness(a, b) == 1.0 <==> a == b
    ensures a < 0.0 < b || b < 0.0 < a || (a == 0.0) != (b == 0.0) ==> Closeness(a, b) == 0.0
    ensures Closeness(b, a) == Closeness(a, b) == Closeness(-a, -b)
  {
    if a != b {
      var scale := if Abs(a) > Abs(b) then Abs(a) else Abs(b);
      Quotient(Abs(a - b), scale);
      assert Abs(b - a) == Abs(a - b) && Abs(-a) == Abs(a) && Abs(-b) == Abs(b) && Abs(-a - -b) == Abs(a - b);
    }
  }

  lemma CloseRatio(a: real, b: real)
    requires 0.0 < a < b
    ensures Closeness(a, b) * b == a
  {
    var q := (b - a) / b;
    assert q * b == b - a;
    assert (q - 1.0) * b == q * b - b;
    assert q > 1.0 ==> (q - 1.0) * b > 0.0;
    assert Abs(a) == a && Abs(b) == b && Abs(a - b) == b - a;
    assert q <= 1.0;
    var scale := if Abs(a) > Abs(b) then Abs(a) else Abs(b);
    assert scale == b;
    assert Abs(a - b) / scale == q;
    assert Closeness(a, b) == 1.0 - q;
    assert (1.0 - q) * b == b - q * b;
  }

  lemma Quotient(n: real, d: real)
    requires n > 0.0 && d > 0.0
    ensures n / d > 0.0 && (n >= d ==> n / d >= 1.0)
  {
    var q := n / d;
    assert q * d == n;
    assert q <= 0.0 ==> q * d <= 0.0;
    assert q < 1.0 ==> (1.0 - q) * d > 0.0;
  }

  /** The further apart, the less alike. */
  lemma FartherIsLess(a: real, b: real, c: real)
    requires 0.0 < a <= b < c
    ensures Closeness(a, c) < Closeness(a, b)
  {
    if a == b {
      CloseNumbers(a, b);
      CloseNumbers(a, c);
    } else {
      CloseRatio(a, b);
      CloseRatio(a, c);
      SmallerFactor(Closeness(a, b), b, Closeness(a, c), c);
    }
  }

  lemma SmallerFactor(x: real, b: real, y: real, c: real)
    requires x * b == y * c && 0.0 <= x && 0.0 < b < c && y * c > 0.0
    ensures y < x
  {
    assert y >= x ==> (y - x) * b >= 0.0;
    assert y <= 0.0 ==> y * c <= 0.0;
    assert y > 0.0 ==> y * (c - b) > 0.0;
    assert y * c == y * b + y * (c - b);
    assert (y - x) * b == y * b - x * b;
  }

  /** Texts that are numbers compare as numbers; any other text matches nothing. */
  lemma NumbersOnly(text: Text, a: string, b: string)
    ensures text.number(a).None? || text.number(b).None? ==> NumericClose.Compare(text, a, b) == 0.0
    ensures text.number(a).Some? && text.number(b).Some? ==>
              NumericClose.Compare(text, a, b) == Closeness(text.number(a).value, text.number(b).value)
  {
  }

  // ---- The score ----

  /** A field both atoms carry, and how alike its values are. */
  ghost predicate Shared(rules: seq<FieldRule>, i: nat, a: Props, b: Props) {
    i < |rules| && rules[i].field in a && rules[i].field in b
  }

  ghost function Alike(text: Text, rules: seq<FieldRule>, i: nat, a: Props, b: Props): real
    requires Shared(rules, i, a, b)
  {
    rules[i].comparator.Compare(text, a[rules[i].field], b[rules[i].field])
  }

  ghost predicate AllAlike(text: Text, rules: seq<FieldRule>, a: Props, b: Props, value: real) {
    forall i: nat | Shared(rules, i, a, b) :: Alike(text, rules, i, a, b) == value
  }

  /** The score is 1 exactly when there is a shared field and every shared field
      agrees fully, and 0 exactly when none of them agrees at all. */
  lemma ScoreExtremes(text: Text, rules: seq<FieldRule>, a: Props, b: Props)
    requires Positive(rules)
    ensures Score(text, rules, a, b) == 1.0 <==>
              (exists i: nat :: Shared(rules, i, a, b)) && AllAlike(text, rules, a, b, 1.0)
    ensures Score(text, rules, a, b) == 0.0 <==> AllAlike(text, rules, a, b, 0.0)
  {
    SumExtremes(text, rules, a, b);
    SumBounds(text, rules, a, b);
    var (sum, total) := (WeightedSum(text, rules, a, b), TotalWeight(rules, a, b));
    hide WeightedSum, TotalWeight, AllAlike, Shared, Comparator.Compare, Positive;
    if total > 0.0 { QuotientExtremes(sum, total); }
  }

  lemma QuotientExtremes(n: real, d: real)
    requires d > 0.0
    ensures (n / d == 1.0 <==> n == d) && (n / d == 0.0 <==> n == 0.0)
  {
    assert n / d * d == n;
  }

  lemma {:induction false} SumExtremes(text: Text, rules: seq<FieldRule>, a: Props, b: Props)
    requires Positive(rules)
    ensures TotalWeight(rules, a, b) >= 0.0
    ensures TotalWeight(rules, a, b) > 0.0 <==> exists i: nat :: Shared(rules, i, a, b)
    ensures WeightedSum(text, rules, a, b) == TotalWeight(rules, a, b) <==> AllAlike(text, rules, a, b, 1.0)
    ensures WeightedSum(text, rules, a, b) == 0.0 <==> AllAlike(text, rules, a, b, 0.0)
  {
    hide Comparator.Compare;
    if rules != [] {
      SumExtremes(text, rules[1..], a, b);
      SumBounds(text, rules[1..], a, b);
      PartBounds(text, rules[0], a, b);
      PartExtremes(text, rules, a, b);
      RestShared(text, rules, a, b, 1.0);
      RestShared(text, rules, a, b, 0.0);
      hide AllAlike, Shared, Part;
    }
  }

  lemma PartExtremes(text: Text, rules: seq<FieldRule>, a: Props, b: Props)
    requires rules != [] && rules[0].weight > 0.0
    ensures var (part, most) := (Part(text, rules[0], a, b), if Both(rules[0], a, b) then rules[0].weight else 0.0);
            (part == most <==> !Shared(rules, 0, a, b) || Alike(text, rules, 0, a, b) == 1.0) &&
            (part == 0.0 <==> !Shared(rules, 0, a, b) || Alike(text, rules, 0, a, b) == 0.0)
  {
    hide Comparator.Compare;
    if Shared(rules, 0, a, b) {
      var (w, x) := (rules[0].weight, Alike(text, rules, 0, a, b));
      assert x < 1.0 ==> w * (1.0 - x) > 0.0;
      assert x > 0.0 ==> w * x > 0.0;
    }
  }

  lemma RestShared(text: Text, rules: seq<FieldRule>, a: Props, b: Props, value: real)
    requires rules != []
    ensures (exists i: nat :: Shared(rules, i, a, b)) <==>
              Shared(rules, 0, a, b) || exists i: nat :: Shared(rules[1..], i, a, b)
    ensures AllAlike(text, rules, a, b, value) <==>
              (Shared(rules, 0, a, b) ==> Alike(text, rules, 0, a, b) == value) &&
              AllAlike(text, rules[1..], a, b, value)
  {
    hide Comparator.Compare;
    forall i: nat ensures Shared(rules[1..], i, a, b) <==> Shared(rules, i + 1, a, b) {}
    if i: nat :| Shared(rules, i, a, b) {
      if i > 0 { assert Shared(rules[1..], i - 1, a, b); }
    }
    if i: nat :| Shared(rules[1..], i, a, b) { assert Shared(rules, i + 1, a, b); }
    if AllAlike(text, rules, a, b, value) {
      forall i: nat | Shared(rules[1..], i, a, b) ensures Alike(text, rules[1..], i, a, b) == value {
        assert Shared(rules, i + 1, a, b);
        assert Alike(text, rules[1..], i, a, b) == Alike(text, rules, i + 1, a, b);
      }
    }
    if (Shared(rules, 0, a, b) ==> Alike(text, rules, 0, a, b) == value) && AllAlike(text, rules[1..], a, b, value) {
      forall i: nat | Shared(rules, i, a, b) ensures Alike(text, rules, i, a, b) == value {
        if i > 0 {
          assert Shared(rules[1..], i - 1, a, b);
          assert Alike(text, rules[1..], i - 1, a, b) == Alike(text, rules, i, a, b);
        }
      }
    }
  }

  /** The features are the shared fields, each with how alike its values are (by
      its last rule, had it several). */
  lemma {:induction false} FeatureOfField(text: Text, rules: seq<FieldRule>, a: Props, b: Props, field: string)
    ensures field in FeaturesOf(text, rules, a, b) <==>
              exists i: nat :: Shared(rules, i, a, b) && rules[i].field == field
    ensures forall i: nat | Shared(rules, i, a, b) && rules[i].field == field &&
                            (forall j | i < j < |rules| :: rules[j].field != field) ::
              field in FeaturesOf(text, rules, a, b) &&
              FeaturesOf(text, rules, a, b)[field] == Alike(text, rules, i, a, b)
    decreases |rules|
  {
    hide Comparator.Compare;
    if rules != [] {
      var n := |rules| - 1;
      var before := rules[..n];
      FeatureOfField(text, before, a, b, field);
      forall i: nat | i < n
        ensures Shared(rules, i, a, b) <==> Shared(before, i, a, b)
        ensures Shared(rules, i, a, b) ==> Alike(text, rules, i, a, b) == Alike(text, before, i, a, b)
      {}
      if i: nat :| Shared(before, i, a, b) && before[i].field == field { assert Shared(rules, i, a, b); }
    }
  }

  /** Two pairs that share the same fields: the one whose fields are all at least
      as alike scores at least as high. */
  lemma AlikeScoresHigher(text: Text, rules: seq<FieldRule>, a: Props, b: Props, c: Props, d: Props)
    requires Positive(rules)
    requires forall i: nat :: Shared(rules, i, a, b) <==> Shared(rules, i, c, d)
    requires forall i: nat | Shared(rules, i, a, b) :: Alike(text, rules, i, a, b) <= Alike(text, rules, i, c, d)
    ensures Score(text, rules, a, b) <= Score(text, rules, c, d)
  {
    hide Comparator.Compare, Shared;
    AlikeSums(text, rules, a, b, c, d);
    var total := TotalWeight(rules, a, b);
    hide WeightedSum, TotalWeight;
    if total > 0.0 { DivideGrows(WeightedSum(text, rules, a, b), WeightedSum(text, rules, c, d), total); }
  }

  lemma DivideGrows(x: real, y: real, n: real)
    requires x <= y && n > 0.0
    ensures x / n <= y / n
  {
    var (p, q) := (x / n, y / n);
    assert p * n == x && q * n == y;
    assert p > q ==> (p - q) * n > 0.0;
  }

  lemma {:induction false} AlikeSums(text: Text, rules: seq<FieldRule>, a: Props, b: Props, c: Props, d: Props)
    requires Positive(rules)
    requires forall i: nat :: Shared(rules, i, a, b) <==> Shared(rules, i, c, d)
    requires forall i: nat | Shared(rules, i, a, b) :: Alike(text, rules, i, a, b) <= Alike(text, rules, i, c, d)
    ensures TotalWeight(rules, a, b) == TotalWeight(rules, c, d)
    ensures WeightedSum(text, rules, a, b) <= WeightedSum(text, rules, c, d)
  {
    hide Comparator.Compare, WeightedSum, Part;
    SumParts(text, rules, a, b);
    SumParts(text, rules, c, d);
    if rules != [] {
      var rest := rules[1..];
      forall i: nat
        ensures Shared(rest, i, a, b) <==> Shared(rest, i, c, d)
        ensures Shared(rest, i, a, b) ==> Alike(text, rest, i, a, b) <= Alike(text, rest, i, c, d)
      {
        assert Shared(rules, i + 1, a, b) <==> Shared(rest, i, a, b);
        assert Shared(rules, i + 1, c, d) <==> Shared(rest, i, c, d);
        if Shared(rest, i, a, b) {
          assert Alike(text, rules, i + 1, a, b) == Alike(text, rest, i, a, b);
          assert Alike(text, rules, i + 1, c, d) == Alike(text, rest, i, c, d);
        }
      }
      AlikeSums(text, rest, a, b, c, d);
      assert Shared(rules, 0, a, b) <==> Shared(rules, 0, c, d);
      FirstPart(text, rules, a, b, c, d);
    }
  }

  lemma SumParts(text: Text, rules: seq<FieldRule>, a: Props, b: Props)
    ensures rules == [] ==> WeightedSum(text, rules, a, b) == 0.0
    ensures rules != [] ==>
              WeightedSum(text, rules, a, b) == Part(text, rules[0], a, b) + WeightedSum(text, rules[1..], a, b)
  {
    hide Part;
  }

  lemma FirstPart(text: Text, rules: seq<FieldRule>, a: Props, b: Props, c: Props, d: Props)
    requires rules != [] && rules[0].weight > 0.0 && (Shared(rules, 0, a, b) <==> Shared(rules, 0, c, d))
    requires Shared(rules, 0, a, b) ==> Alike(text, rules, 0, a, b) <= Alike(text, rules, 0, c, d)
    ensures Part(text, rules[0], a, b) <= Part(text, rules[0], c, d)
  {
    hide Comparator.Compare, Part, Alike;
    PartIs(text, rules, a, b);
    PartIs(text, rules, c, d);
    if Shared(rules, 0, a, b) {
      var w, x, y := rules[0].weight, Alike(text, rules, 0, a, b), Alike(text, rules, 0, c, d);
      Scaled(w, x, y);
    }
  }

  lemma PartIs(text: Text, rules: seq<FieldRule>, a: Props, b: Props)
    requires rules != []
    ensures Part(text, rules[0], a, b) ==
            if Shared(rules, 0, a, b) then rules[0].weight * Alike(text, rules, 0, a, b) else 0.0
  {
    hide Comparator.Compare;
  }

  lemma Scaled(w: real, x: real, y: real)
    requires w >= 0.0 && x <= y
    ensures w * x <= w * y
  {
    assert w * (y - x) >= 0.0;
    assert w * y == w * x + w * (y - x);
  }

  /** Agreeing on one more field never lowers a score. */
  lemma OneMoreField(text: Text, rules: seq<FieldRule>, a: Props, b: Props, field: string, x: string, y: string)
    requires Positive(rules) && !(field in a && field in b)
    requires forall rule | rule in rules && rule.field == field :: rule.comparator.Compare(text, x, y) == 1.0
    ensures Score(text, rules, a[field := x], b[field := y]) >= Score(text, rules, a, b)
  {
    hide Comparator.Compare;
    var more := OneMoreWeight(text, rules, a, b, field, x, y);
    SumBounds(text, rules, a, b);
    var (sum, total) := (WeightedSum(text, rules, a, b), TotalWeight(rules, a, b));
    var (c, d) := (a[field := x], b[field := y]);
    assert WeightedSum(text, rules, c, d) == sum + more && TotalWeight(rules, c, d) == total + more;
    ScoreBounds(text, rules, c, d);
    hide WeightedSum, TotalWeight;
    if total > 0.0 { AddedShare(sum, total, more); }
  }

  lemma AddedShare(sum: real, total: real, more: real)
    requires 0.0 <= sum <= total && total > 0.0 && more >= 0.0
    ensures (sum + more) / (total + more) >= sum / total
  {
    var (p, q) := (sum / total, (sum + more) / (total + more));
    assert p * total == sum && q * (total + more) == sum + more;
    assert p > 1.0 ==> (p - 1.0) * total > 0.0;
    assert p <= 1.0;
    assert p * more <= more by { assert (1.0 - p) * more >= 0.0; }
    assert p * (total + more) == sum + p * more;
    assert p > q ==> (p - q) * (total + more) > 0.0;
  }

  lemma {:induction false} OneMoreWeight(text: Text, rules: seq<FieldRule>, a: Props, b: Props, field: string,
                                         x: string,
                                         y: string) returns (more: real)
    requires Positive(rules) && !(field in a && field in b)
    requires forall rule | rule in rules && rule.field == field :: rule.comparator.Compare(text, x, y) == 1.0
    ensures more >= 0.0
    ensures TotalWeight(rules, a[field := x], b[field := y]) == TotalWeight(rules, a, b) + more
    ensures WeightedSum(text, rules, a[field := x], b[field := y]) == WeightedSum(text, rules, a, b) + more
  {
    hide Comparator.Compare;
    if rules == [] { return 0.0; }
    more := OneMoreWeight(text, rules[1..], a, b, field, x, y);
    var (c, d) := (a[field := x], b[field := y]);
    var rule := rules[0];
    if rule.field == field {
      assert rule in rules;
      assert Part(text, rule, c, d) == rule.weight * 1.0;
      more := more + rule.weight;
    } else {
      assert Both(rule, c, d) <==> Both(rule, a, b);
    }
  }

  // ---- The five kinds of entity ----

  ghost function One(c: bool): real { if c then 1.0 else 0.0 }

  ghost predicate SameText(a: Props, b: Props, field: string)
    requires field in a && field in b
  {
    a[field] == b[field]
  }

  ghost predicate SameName(text: Text, a: Props, b: Props, field: string)
    requires field in a && field in b
  {
    text.strip(text.lower(a[field])) == text.strip(text.lower(b[field]))
  }

  ghost predicate SameBase(text: Text, a: Props, b: Props, field: string)
    requires field in a && field in b
  {
    var (ca, cb) := (Components(a[field]), Components(b[field]));
    ca != [] && cb != [] && text.lower(ca[|ca| - 1]) == text.lower(cb[|cb| - 1])
  }

  ghost function RulesOf(entityType: string): seq<FieldRule> {
    if ScoringSpec(entityType).Some? then ScoringSpec(entityType).value else []
  }

  lemma NoRules(text: Text, a: Props, b: Props)
    ensures TotalWeight([], a, b) == 0.0 && WeightedSum(text, [], a, b) == 0.0
  {}

  lemma FirstRule(text: Text, rule: FieldRule, rest: seq<FieldRule>, a: Props, b: Props)
    requires Both(rule, a, b)
    ensures TotalWeight([rule] + rest, a, b) == rule.weight + TotalWeight(rest, a, b)
    ensures WeightedSum(text, [rule] + rest, a, b) ==
              rule.weight * rule.comparator.Compare(text, a[rule.field], b[rule.field]) +
              WeightedSum(text, rest, a, b)
  {
    hide Comparator.Compare;
    assert ([rule] + rest)[1..] == rest;
  }

  lemma ScoreTimes(text: Text, rules: seq<FieldRule>, a: Props, b: Props)
    ensures TotalWeight(rules, a, b) > 0.0 ==>
              TotalWeight(rules, a, b) * Score(text, rules, a, b) == WeightedSum(text, rules, a, b)
  {
    hide TotalWeight, WeightedSum;
  }

  ghost function Points(text: Text, rule: FieldRule, a: Props, b: Props): real
    requires Both(rule, a, b)
  {
    rule.weight * rule.comparator.Compare(text, a[rule.field], b[rule.field])
  }

  lemma Rules3(text: Text, r0: FieldRule, r1: FieldRule, r2: FieldRule, a: Props, b: Props)
    requires Both(r0, a, b) && Both(r1, a, b) && Both(r2, a, b)
    requires r0.weight + r1.weight + r2.weight > 0.0
    ensures (r0.weight + r1.weight + r2.weight) * Score(text, [r0, r1, r2], a, b) ==
              Points(text, r0, a, b) + Points(text, r1, a, b) + Points(text, r2, a, b)
  {
    hide Comparator.Compare, TotalWeight, WeightedSum, Score;
    assert [r0] + [r1, r2] == [r0, r1, r2];
    FirstRule(text, r0, [r1, r2], a, b);
    assert [r1] + [r2] == [r1, r2];
    FirstRule(text, r1, [r2], a, b);
    assert [r2] + [] == [r2];
    FirstRule(text, r2, [], a, b);
    NoRules(text, a, b);
    ScoreTimes(text, [r0, r1, r2], a, b);
  }

  lemma Rules4(text: Text, r0: FieldRule, r1: FieldRule, r2: FieldRule, r3: FieldRule, a: Props, b: Props)
    requires Both(r0, a, b) && Both(r1, a, b) && Both(r2, a, b) && Both(r3, a, b)
    requires r0.weight + r1.weight + r2.weight + r3.weight > 0.0
    ensures (r0.weight + r1.weight + r2.weight + r3.weight) * Score(text, [r0, r1, r2, r3], a, b) ==
              Points(text, r0, a, b) + Points(text, r1, a, b) + Points(text, r2, a, b) + Points(text, r3, a, b)
  {
    hide Comparator.Compare, TotalWeight, WeightedSum, Score;
    assert [r0] + [r1, r2, r3] == [r0, r1, r2, r3];
    FirstRule(text, r0, [r1, r2, r3], a, b);
    assert [r1] + [r2, r3] == [r1, r2, r3];
    FirstRule(text, r1, [r2, r3], a, b);
    assert [r2] + [r3] == [r2, r3];
    FirstRule(text, r2, [r3], a, b);
    assert [r3] + [] == [r3];
    FirstRule(text, r3, [], a, b);
    NoRules(text, a, b);
    ScoreTimes(text, [r0, r1, r2, r3], a, b);
  }

  lemma Rules5(text: Text, r0: FieldRule, r1: FieldRule, r2: FieldRule, r3: FieldRule, r4: FieldRule, a: Props,
               b: Props)
    requires Both(r0, a, b) && Both(r1, a, b) && Both(r2, a, b) && Both(r3, a, b) && Both(r4, a, b)
    requires r0.weight + r1.weight + r2.weight + r3.weight + r4.weight > 0.0
    ensures (r0.weight + r1.weight + r2.weight + r3.weight + r4.weight) * Score(text, [r0, r1, r2, r3, r4], a, b) ==
              Points(text, r0, a, b) + Points(text, r1, a, b) + Points(text, r2, a, b) + Points(text, r3, a, b) +
              Points(text, r4, a, b)
  {
    hide Comparator.Compare, TotalWeight, WeightedSum, Score;
    assert [r0] + [r1, r2, r3, r4] == [r0, r1, r2, r3, r4];
    FirstRule(text, r0, [r1, r2, r3, r4], a, b);
    assert [r1] + [r2, r3, r4] == [r1, r2, r3, r4];
    FirstRule(text, r1, [r2, r3, r4], a, b);
    assert [r2] + [r3, r4] == [r2, r3, r4];
    FirstRule(text, r2, [r3, r4], a, b);
    assert [r3] + [r4] == [r3, r4];
    FirstRule(text, r3, [r4], a, b);
    assert [r4] + [] == [r4];
    FirstRule(text, r4, [], a, b);
    NoRules(text, a, b);
    ScoreTimes(text, [r0, r1, r2, r3, r4], a, b);
  }

  lemma BinaryScore(text: Text, a: Props, b: Props)
    requires "sha256" in a && "sha256" in b && "executable_name" in a && "executable_name" in b
    requires "path" in a && "path" in b && "arch" in a && "arch" in b
    ensures 13.0 * Score(text, RulesOf("binaries"), a, b) ==
              6.0 * One(SameText(a, b, "sha256")) +
              4.0 * One(SameName(text, a, b, "executable_name")) +
              2.0 * One(SameBase(text, a, b, "path")) +
              One(SameText(a, b, "arch"))
  {
    hide Comparator.Compare, Components, Score;
    var r0 := FieldRule("sha256", Exact, 3.0);
    var r1 := FieldRule("executable_name", NormEqual, 2.0);
    var r2 := FieldRule("path", PathSuffix, 1.0);
    var r3 := FieldRule("arch", Exact, 0.5);
    EqualOrNot(text, a["sha256"], b["sha256"]);
    EqualOrNot(text, a["executable_name"], b["executable_name"]);
    SameBasename(text, a["path"], b["path"]);
    EqualOrNot(text, a["arch"], b["arch"]);
    Rules4(text, r0, r1, r2, r3, a, b);
  }

  lemma DaemonScore(text: Text, a: Props, b: Props)
    requires "label" in a && "label" in b && "program" in a && "program" in b
    requires "plist_path" in a && "plist_path" in b
    ensures 6.0 * Score(text, RulesOf("daemons"), a, b) ==
              3.0 * One(SameName(text, a, b, "label")) +
              2.0 * One(SameBase(text, a, b, "program")) +
              One(SameBase(text, a, b, "plist_path"))
  {
    hide Comparator.Compare, Components, Score;
    var r0 := FieldRule("label", NormEqual, 3.0);
    var r1 := FieldRule("program", PathSuffix, 2.0);
    var r2 := FieldRule("plist_path", PathSuffix, 1.0);
    EqualOrNot(text, a["label"], b["label"]);
    SameBasename(text, a["program"], b["program"]);
    SameBasename(text, a["plist_path"], b["plist_path"]);
    Rules3(text, r0, r1, r2, a, b);
  }

  lemma FrameworkScore(text: Text, a: Props, b: Props)
    requires "bundle_id" in a && "bundle_id" in b && "name" in a && "name" in b
    requires "path" in a && "path" in b && "version" in a && "version" in b
    ensures 13.0 * Score(text, RulesOf("frameworks"), a, b) ==
              6.0 * One(SameName(text, a, b, "bundle_id")) +
              4.0 * One(SameName(text, a, b, "name")) +
              2.0 * One(SameBase(text, a, b, "path")) +
              One(SameText(a, b, "version"))
  {
    hide Comparator.Compare, Components, Score;
    var r0 := FieldRule("bundle_id", NormEqual, 3.0);
    var r1 := FieldRule("name", NormEqual, 2.0);
    var r2 := FieldRule("path", PathSuffix, 1.0);
    var r3 := FieldRule("version", Exact, 0.5);
    EqualOrNot(text, a["bundle_id"], b["bundle_id"]);
    EqualOrNot(text, a["name"], b["name"]);
    SameBasename(text, a["path"], b["path"]);
    EqualOrNot(text, a["version"], b["version"]);
    Rules4(text, r0, r1, r2, r3, a, b);
  }

  lemma KextScore(text: Text, a: Props, b: Props)
    requires "bundle_id" in a && "bundle_id" in b && "name" in a && "name" in b
    requires "version" in a && "version" in b
    ensures 6.0 * Score(text, RulesOf("kexts"), a, b) ==
              3.0 * One(SameName(text, a, b, "bundle_id")) +
              2.0 * One(SameName(text, a, b, "name")) +
              One(SameText(a, b, "version"))
  {
    hide Comparator.Compare, Components, Score;
    var r0 := FieldRule("bundle_id", NormEqual, 3.0);
    var r1 := FieldRule("name", NormEqual, 2.0);
    var r2 := FieldRule("version", Exact, 1.0);
    EqualOrNot(text, a["bundle_id"], b["bundle_id"]);
    EqualOrNot(text, a["name"], b["name"]);
    EqualOrNot(text, a["version"], b["version"]);
    Rules3(text, r0, r1, r2, a, b);
  }

  lemma FileScore(text: Text, a: Props, b: Props)
    requires "sha256" in a && "sha256" in b && "filename" in a && "filename" in b
    requires "path" in a && "path" in b && "size" in a && "size" in b && "file_type" in a && "file_type" in b
    ensures 13.0 * Score(text, RulesOf("files"), a, b) ==
              6.0 * One(SameText(a, b, "sha256")) +
              3.0 * One(SameName(text, a, b, "filename")) +
              2.0 * One(SameBase(text, a, b, "path")) +
              NumericClose.Compare(text, a["size"], b["size"]) +
              One(SameText(a, b, "file_type"))
  {
    hide Comparator.Compare, Components, Score;
    var r0 := FieldRule("sha256", Exact, 3.0);
    var r1 := FieldRule("filename", NormEqual, 1.5);
    var r2 := FieldRule("path", PathSuffix, 1.0);
    var r3 := FieldRule("size", NumericClose, 0.5);
    var r4 := FieldRule("file_type", Exact, 0.5);
    EqualOrNot(text, a["sha256"], b["sha256"]);
    EqualOrNot(text, a["filename"], b["filename"]);
    SameBasename(text, a["path"], b["path"]);
    EqualOrNot(text, a["file_type"], b["file_type"]);
    Rules5(text, r0, r1, r2, r3, r4, a, b);
  }

  // ---- Blocking ----

  /** Joining: one part is itself, and lists of parts join around a bar. */
  lemma {:induction false} JoinedParts(p: seq<string>, q: seq<string>)
    ensures |p| == 1 ==> JoinParts(p) == p[0]
    ensures p != [] && q != [] ==> JoinParts(p + q) == JoinParts(p) + "|" + JoinParts(q)
  {
    if |p| > 1 && q != [] {
      assert (p + q)[1..] == p[1..] + q;
      JoinedParts(p[1..], q);
      var (first, rest, tail) := (p[0], JoinParts(p[1..]), JoinParts(q));
      assert first + "|" + (rest + "|" + tail) == first + "|" + rest + "|" + tail;
    } else if |p| == 1 && q != [] {
      assert (p + q)[1..] == q;
    }
  }

  ghost function BlockingValue(text: Text, props: Props, key: string): string {
    text.strip(text.lower(if key in props then props[key] else ""))
  }

  /** An atom has no bucket exactly when all its blocking values are blank; one key
      makes its value the bucket; and equal values make the same bucket. */
  lemma Buckets(text: Text, a: Props, b: Props, keys: seq<string>)
    ensures BucketKey(text, a, keys) == None <==> forall k | k in keys :: BlockingValue(text, a, k) == ""
    ensures |keys| == 1 && BlockingValue(text, a, keys[0]) != "" ==>
              BucketKey(text, a, keys) == Some(BlockingValue(text, a, keys[0]))
    ensures (forall k | k in keys :: BlockingValue(text, a, k) == BlockingValue(text, b, k)) ==>
              BucketKey(text, a, keys) == BucketKey(text, b, keys)
  {
    var parts := BlockingParts(text, a, keys);
    BlockingKey(text, a, keys);
    BlockingKey(text, b, keys);
    hide BucketKey, JoinParts;
    if forall i | 0 <= i < |parts| :: parts[i] == "" {
      forall k | k in keys ensures BlockingValue(text, a, k) == "" {
        var i :| 0 <= i < |keys| && keys[i] == k;
        assert parts[i] == BlockingValue(text, a, k);
      }
    }
    if |keys| == 1 {
      JoinedParts(parts, []);
      assert parts[0] == BlockingValue(text, a, keys[0]);
    }
    if forall k | k in keys :: BlockingValue(text, a, k) == BlockingValue(text, b, k) {
      assert parts == BlockingParts(text, b, keys);
    }
  }

  ghost function BlockingParts(text: Text, a: Props, keys: seq<string>): seq<string> {
    seq(|keys|, i requires 0 <= i < |keys| => BlockingValue(text, a, keys[i]))
  }

  lemma BlockingKey(text: Text, a: Props, keys: seq<string>)
    ensures var parts := BlockingParts(text, a, keys);
            BucketKey(text, a, keys) ==
              if forall i | 0 <= i < |parts| :: parts[i] == "" then None else Some(JoinParts(parts))
  {
    var parts := BlockingParts(text, a, keys);
    assert parts == seq(|keys|, i requires 0 <= i < |keys| =>
                        text.Normalize(if keys[i] in a then a[keys[i]] else ""));
  }

  /** A full-text hit counts when it is another atom of the type. */
  ghost predicate Counts(atoms: map<int, Blockable>, self: int, hit: int) { hit != self && hit in atoms }

  ghost function Counting(atoms: map<int, Blockable>, self: int, hits: seq<int>): nat {
    if hits == [] then 0 else (if Counts(atoms, self, hits[0]) then 1 else 0) + Counting(atoms, self, hits[1..])
  }

  /** The i-th hit is h, counts, and comes before the limit is reached. */
  ghost predicate KeptAt(atoms: map<int, Blockable>, self: int, hits: seq<int>, room: nat, h: int, i: nat) {
    i < |hits| && hits[i] == h && Counts(atoms, self, h) && Counting(atoms, self, hits[..i]) < room
  }

  /** A hit is kept exactly when it counts and fewer than the limit counted before it. */
  lemma {:induction false} KeptHits(atoms: map<int, Blockable>, self: int, hits: seq<int>, room: nat, h: int)
    ensures h in Kept(atoms, self, hits, room) <==> exists i: nat :: KeptAt(atoms, self, hits, room, h, i)
    decreases |hits|
  {
    if hits != [] && room > 0 {
      var (first, rest) := (hits[0], hits[1..]);
      var left := if Counts(atoms, self, first) then room - 1 else room;
      KeptHits(atoms, self, rest, left, h);
      KeptFirst(atoms, self, hits, room, h);
      hide Kept, KeptAt;
      if i: nat :| KeptAt(atoms, self, hits, room, h, i) {
        if i > 0 { KeptLater(atoms, self, hits, room, h, i - 1); }
      }
      if i: nat :| KeptAt(atoms, self, rest, left, h, i) { KeptLater(atoms, self, hits, room, h, i); }
    }
  }

  lemma KeptFirst(atoms: map<int, Blockable>, self: int, hits: seq<int>, room: nat, h: int)
    requires hits != [] && room > 0
    ensures KeptAt(atoms, self, hits, room, h, 0) <==> h == hits[0] && Counts(atoms, self, h)
    ensures var left := if Counts(atoms, self, hits[0]) then room - 1 else room;
            h in Kept(atoms, self, hits, room) <==>
              h in Kept(atoms, self, hits[1..], left) || KeptAt(atoms, self, hits, room, h, 0)
  {
    assert hits[..0] == [];
  }

  lemma KeptLater(atoms: map<int, Blockable>, self: int, hits: seq<int>, room: nat, h: int, i: nat)
    requires hits != [] && room > 0
    ensures KeptAt(atoms, self, hits, room, h, i + 1) <==>
              KeptAt(atoms, self, hits[1..], if Counts(atoms, self, hits[0]) then room - 1 else room, h, i)
  {
    if i + 1 < |hits| { assert hits[..i + 1][1..] == hits[1..][..i]; }
  }
}
