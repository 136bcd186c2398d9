/** Parser auto-detection: one bounded sample of the source, shared by every
    parser, and the contest that the most specific parser wins. */
module Detection {
  import opened Wrappers
  import opened ByteOrder
  import opened Collections

  type Path = string

  type Data = seq<int>

  /** A sampled file: its size when listed, and what opening and reading
      `size + 1` bytes of it gives (None: it cannot be opened). */
  datatype Entry = Entry(size: nat, regular: bool, content: Option<Data>)

  type Files = map<Path, Entry>

  // ---- Adaptive parsers ----

  datatype Choice = Read(path: Path) | Answer(identified: bool) | Raise

  datatype Manifest = Manifest(specificity: int, confidence: real)

  /** A parser: what it does after the reads it has made so far, at most `limit`
      of them. */
  datatype Parser = Parser(name: Bytes, manifest: Option<Manifest>, next: seq<Option<Data>> -> Choice, limit: nat)

  // ---- What a parser would do with unlimited evidence ----

  /** The whole content, for a regular file that can be read whole. */
  function Whole(files: Files, path: Path): Option<Data> {
    if path in files && files[path].regular && files[path].content.Some? &&
       |files[path].content.value| <= files[path].size
    then files[path].content else None
  }

  predicate Regular(files: Files, path: Path) { path in files && files[path].regular }

  ghost function Wanted(files: Files, p: Parser, history: seq<Option<Data>>): set<Path>
    decreases p.limit - |history|
  {
    if |history| >= p.limit then {}
    else match p.next(history)
        case Read(path) =>
          (if Regular(files, path) then {path} else {}) + Wanted(files, p, history + [Whole(files, path)])
         case Answer(_) => {}
         case Raise => {}
  }

  ghost function Identifies(files: Files, p: Parser, history: seq<Option<Data>>): bool
    decreases p.limit - |history|
  {
    if |history| >= p.limit then false
    else match p.next(history)
         case Read(path) => Identifies(files, p, history + [Whole(files, path)])
         case Answer(identified) => identified
         case Raise => false
  }

  // ---- The shared evidence ----

  datatype State = State(remaining: nat, samples: map<Path, Data>, exhausted: bool)

  function ReadFrom(files: Files, st: State, path: Path): (Option<Data>, State) {
    if !Regular(files, path) then (None, st)
    else if path in st.samples then (Some(st.samples[path]), st)
    else if files[path].size > st.remaining then (None, st.(exhausted := true))
    else if Whole(files, path).None? then (None, st)
    else
      var data := Whole(files, path).value;
      (Some(data), st.(remaining := st.remaining - |data|, samples := st.samples[path := data]))
  }

  function Consult(files: Files, p: Parser, history: seq<Option<Data>>, st: State): (bool, State)
    decreases p.limit - |history|
  {
    if |history| >= p.limit then (false, st)
    else match p.next(history)
         case Read(path) =>
           var (data, after) := ReadFrom(files, st, path);
           Consult(files, p, history + [data], after)
         case Answer(identified) => (identified, st)
         case Raise => (false, st)
  }

  /** The parsers in registration order: who identified the source. */
  function Contest(files: Files, parsers: seq<Parser>, st: State): (seq<Parser>, State) {
    if parsers == [] then ([], st)
    else
      var (before, mid) := Contest(files, parsers[..|parsers| - 1], st);
      var p := parsers[|parsers| - 1];
      var (identified, after) := Consult(files, p, [], mid);
      (if identified then before + [p] else before, after)
  }

  class DetectionEvidence {
    const files: Files
    var bytesRemaining: nat
    var samples: map<Path, Data>
    var byteBudgetExhausted: bool

    constructor (files: Files, budget: nat)
      ensures Valid() && this.files == files && Now() == State(budget, map[], false)
    {
      this.files := files;
      bytesRemaining, samples, byteBudgetExhausted := budget, map[], false;
    }

    function Now(): State
      reads this
    {
      State(bytesRemaining, samples, byteBudgetExhausted)
    }

    /** What is cached is what the files give. */
    ghost predicate Valid()
      reads this
    {
      Sampled(files, samples)
    }

    /** `read_file`: a parser gets what the file gives unless its listed size is more
        than is left; cached bytes and bytes left stay the same together, and a file
        once cached stays. */
    method ReadFile(path: Path) returns (data: Option<Data>)
      requires Valid()
      modifies this
      ensures Valid()
      ensures data == if Refused(files, old(Now()), path) then None else Whole(files, path)
      ensures byteBudgetExhausted <==> old(byteBudgetExhausted) || Refused(files, old(Now()), path)
      ensures bytesRemaining + CachedBytes(samples) == old(bytesRemaining) + CachedBytes(old(samples))
      ensures samples.Keys == old(samples).Keys + if data.Some? then {path} else {}
      ensures (data, Now()) == ReadFrom(files, old(Now()), path)
    {
      ReadBalanced(files, bytesRemaining + CachedBytes(samples), Now(), path);
      if path !in files || !files[path].regular { return None; }
      if path in samples { return Some(samples[path]); }
      var entry := files[path];
      if entry.size > bytesRemaining {
        byteBudgetExhausted := true;
        return None;
      }
      if entry.content.None? { return None; }
      var read := entry.content.value;
      if |read| > entry.size { return None; }
      bytesRemaining := bytesRemaining - |read|;
      samples := samples[path := read];
      return Some(read);
    }

    /** One parser's `identify_evidence`, reading as it goes. */
    method Identify(p: Parser) returns (identified: bool)
      requires Valid()
      modifies this
      ensures Valid()
      ensures (identified, Now()) == Consult(files, p, [], old(Now()))
    {
      var history: seq<Option<Data>> := [];
      while |history| < p.limit
        invariant Valid()
        invariant Consult(files, p, history, Now()) == Consult(files, p, [], old(Now()))
        decreases p.limit - |history|
      {
        match p.next(history)
        case Read(path) =>
          var data := ReadFile(path);
          history := history + [data];
        case Answer(answer) => return answer;
        case Raise => return false;
      }
      return false;
    }
  }

  // ---- What the cache holds ----

  /** The total of a table of weights. */
  ghost function Sum(weights: map<Path, nat>): nat
    decreases |weights|
  {
    if weights == map[] then 0
    else
      var p :| p in weights;
      assert |weights - {p}| < |weights| by { FewerKeys(weights, p); }
      weights[p] + Sum(weights - {p})
  }

  lemma FewerKeys(weights: map<Path, nat>, p: Path)
    requires p in weights
    ensures |weights - {p}| < |weights|
  {
    assert (weights - {p}).Keys == weights.Keys - {p};
    assert |weights.Keys| == |weights| && |(weights - {p}).Keys| == |weights - {p}|;
  }

  lemma {:induction false} SumRemove(weights: map<Path, nat>, q: Path)
    requires q in weights
    ensures Sum(weights) == weights[q] + Sum(weights - {q})
    decreases |weights|
  {
    var p :| p in weights && Sum(weights) == weights[p] + Sum(weights - {p});
    if p != q {
      FewerKeys(weights, p);
      FewerKeys(weights, q);
      SumRemove(weights - {p}, q);
      SumRemove(weights - {q}, p);
      assert weights - {p} - {q} == weights - {q} - {p};
    }
  }

  /** The bytes in the cache. */
  ghost function CachedBytes(samples: map<Path, Data>): nat {
    Sum(map p | p in samples :: |samples[p]|)
  }

  lemma CacheGrows(samples: map<Path, Data>, p: Path, data: Data)
    requires p !in samples
    ensures CachedBytes(samples[p := data]) == CachedBytes(samples) + |data|
  {
    var grown := samples[p := data];
    var before, after := (map q | q in samples :: |samples[q]|), (map q | q in grown :: |grown[q]|);
    SumRemove(after, p);
    assert after - {p} == before;
  }

  /** Conservation: the bytes in the cache and the bytes left are the budget. */
  ghost predicate Balanced(budget: nat, st: State) {
    st.remaining + CachedBytes(st.samples) == budget
  }

  /** The cache holds only what the files give. */
  ghost predicate Sampled(files: Files, samples: map<Path, Data>) {
    forall p | p in samples :: Some(samples[p]) == Whole(files, p)
  }

  /** A read is refused for want of budget. */
  predicate Refused(files: Files, st: State, path: Path) {
    Regular(files, path) && path !in st.samples && files[path].size > st.remaining
  }

  /** A read keeps the balance, whatever the file turns out to be; it exhausts the
      budget exactly when it is refused; a read that is not refused gives what the
      file gives, and caches it. */
  lemma ReadBalanced(files: Files, budget: nat, st: State, path: Path)
    requires Balanced(budget, st)
    ensures Balanced(budget, ReadFrom(files, st, path).1)
    ensures ReadFrom(files, st, path).1.exhausted <==> st.exhausted || Refused(files, st, path)
    ensures Sampled(files, st.samples) ==>
              var (data, after) := ReadFrom(files, st, path);
              Sampled(files, after.samples) &&
              if Refused(files, st, path) then data.None? && after.samples == st.samples
              else data == Whole(files, path) && after.samples.Keys == st.samples.Keys + Loadable(files, {path})
  {
    if Regular(files, path) && path !in st.samples && Whole(files, path).Some? {
      CacheGrows(st.samples, path, Whole(files, path).value);
    }
  }

  lemma {:induction false} ConsultBalanced(files: Files, budget: nat, p: Parser, history: seq<Option<Data>>, st: State)
    requires Balanced(budget, st)
    ensures Balanced(budget, Consult(files, p, history, st).1)
    ensures st.exhausted ==> Consult(files, p, history, st).1.exhausted
    decreases p.limit - |history|
  {
    hide Balanced, ReadFrom;
    if |history| < p.limit && p.next(history).Read? {
      var (data, after) := ReadFrom(files, st, p.next(history).path);
      ReadBalanced(files, budget, st, p.next(history).path);
      ConsultBalanced(files, budget, p, history + [data], after);
    }
  }

  /** Whatever is read, refused, unreadable, short or too long, cached bytes and
      bytes left make up the budget. */
  lemma {:induction false} ContestBalanced(files: Files, budget: nat, parsers: seq<Parser>)
    ensures Balanced(budget, Contest(files, parsers, State(budget, map[], false)).1)
  {
    if parsers != [] {
      hide Balanced, Consult;
      ContestBalanced(files, budget, parsers[..|parsers| - 1]);
      ConsultBalanced(files, budget, parsers[|parsers| - 1], [],
                      Contest(files, parsers[..|parsers| - 1], State(budget, map[], false)).1);
    } else {
      assert CachedBytes(map[]) == 0;
    }
  }

  // ---- Charges ----

  /** What reading a file takes from the budget: what it gives, or nothing when it
      cannot be read or gives more than its listed size. The size is what is
      checked beforehand. */
  function Charge(files: Files, p: Path): nat {
    if Whole(files, p).Some? then |Whole(files, p).value| else 0
  }

  function Size(files: Files, p: Path): nat { if p in files then files[p].size else 0 }

  /** The charge of a set of files together. */
  ghost function Load(files: Files, s: set<Path>): nat {
    Sum(map p | p in s :: Charge(files, p))
  }

  ghost function Loadable(files: Files, s: set<Path>): set<Path> { set p | p in s && Whole(files, p).Some? }

  lemma LoadRemove(files: Files, s: set<Path>, p: Path)
    requires p in s
    ensures Load(files, s) == Charge(files, p) + Load(files, s - {p})
  {
    var weights := map q | q in s :: Charge(files, q);
    SumRemove(weights, p);
    assert weights - {p} == map q | q in s - {p} :: Charge(files, q);
  }

  lemma LoadAdd(files: Files, s: set<Path>, p: Path)
    requires p !in s
    ensures Load(files, s + {p}) == Charge(files, p) + Load(files, s)
  {
    LoadRemove(files, s + {p}, p);
    assert s + {p} - {p} == s;
  }

  lemma LoadNone(files: Files)
    ensures Load(files, {}) == 0
  {
    assert (map p | p in {} :: Charge(files, p)) == map[];
  }

  lemma {:induction false} LoadMonotone(files: Files, s: set<Path>, t: set<Path>)
    requires s <= t
    ensures Load(files, s) <= Load(files, t)
    decreases |t - s|
  {
    if s != t {
      var q :| q in t && q !in s;
      LoadRemove(files, t, q);
      assert t - {q} - s == t - s - {q};
      LoadMonotone(files, s, t - {q});
    }
  }

  /** The bytes of the cache are the charges of the files seen. */
  lemma {:induction false} LoadIsCached(files: Files, seen: set<Path>, samples: map<Path, Data>)
    requires Sampled(files, samples) && samples.Keys == Loadable(files, seen)
    ensures Load(files, seen) == CachedBytes(samples)
    decreases |seen|
  {
    if exists p :: p in seen && p !in samples {
      var p :| p in seen && p !in samples;
      LoadRemove(files, seen, p);
      LoadIsCached(files, seen - {p}, samples);
    } else {
      assert (map p | p in seen :: Charge(files, p)) == map p | p in samples :: |samples[p]|;
    }
  }

  // ---- Orders of reading ----

  /** Read in this order from a full budget, no file of the list is refused. */
  ghost predicate Loads(files: Files, budget: nat, list: seq<Path>) {
    Distinct(list) && (forall p | p in list :: Regular(files, p)) &&
    forall i | 0 <= i < |list| :: Size(files, list[i]) + Load(files, Elements(list[..i])) <= budget
  }

  /** Each file of the set, read last, is still not refused. */
  ghost predicate Fits(files: Files, budget: nat, s: set<Path>) {
    forall p | p in s :: Size(files, p) + Load(files, s - {p}) <= budget
  }

  /** No files that load in one order and do not fit. */
  ghost predicate NoGap(files: Files, budget: nat) {
    forall list | Loads(files, budget, list) :: Fits(files, budget, Elements(list))
  }

  lemma FitsMonotone(files: Files, budget: nat, s: set<Path>, t: set<Path>)
    requires s <= t && Fits(files, budget, t)
    ensures Fits(files, budget, s)
  {
    forall p | p in s ensures Size(files, p) + Load(files, s - {p}) <= budget {
      LoadMonotone(files, s - {p}, t - {p});
    }
  }

  ghost predicate LoadsSomehow(files: Files, budget: nat, s: set<Path>) {
    exists list :: Elements(list) == s && Loads(files, budget, list)
  }

  /** The evidence after reads that unlimited parsers would have made too: either
      the files seen load in some order, the one they were first read in, or they
      do not fit. */
  ghost predicate Faithful(files: Files, budget: nat, seen: set<Path>, st: State) {
    Balanced(budget, st) && Sampled(files, st.samples) &&
    if st.exhausted then !Fits(files, budget, seen)
    else LoadsSomehow(files, budget, seen) && st.samples.Keys == Loadable(files, seen)
  }

  lemma LoadsNext(files: Files, budget: nat, seen: set<Path>, path: Path)
    requires LoadsSomehow(files, budget, seen) && Regular(files, path) && path !in seen
    requires Size(files, path) + Load(files, seen) <= budget
    ensures LoadsSomehow(files, budget, seen + {path})
  {
    hide Load;
    var list :| Elements(list) == seen && Loads(files, budget, list);
    var next := list + [path];
    AppendElements(list, path);
    forall i | 0 <= i < |next| ensures Size(files, next[i]) + Load(files, Elements(next[..i])) <= budget {
      assert next[..i] == if i < |list| then list[..i] else list;
    }
    forall i, j | 0 <= i < j < |next| ensures next[i] != next[j] {
      assert j == |list| ==> list[i] in list;
    }
    assert Loads(files, budget, next);
  }

  /** A refused file makes the files seen too much. */
  lemma RefusedTooMuch(files: Files, budget: nat, seen: set<Path>, path: Path)
    requires Size(files, path) + Load(files, seen) > budget && (path in seen ==> Charge(files, path) == 0)
    ensures !Fits(files, budget, seen + {path})
  {
    if path in seen {
      LoadRemove(files, seen, path);
      assert seen + {path} == seen;
    } else {
      assert seen + {path} - {path} == seen;
    }
    assert path in seen + {path};
  }

  lemma ReadFaithful(files: Files, budget: nat, seen: set<Path>, st: State, path: Path)
    requires Faithful(files, budget, seen, st) && !st.exhausted
    ensures var (data, after) := ReadFrom(files, st, path);
            var more := if Regular(files, path) then {path} else {};
            Faithful(files, budget, seen + more, after) && (!after.exhausted ==> data == Whole(files, path))
  {
    hide ReadFrom, Load, CachedBytes, LoadsSomehow, Fits;
    var (data, after) := ReadFrom(files, st, path);
    var more := if Regular(files, path) then {path} else {};
    ReadBalanced(files, budget, st, path);
    LoadIsCached(files, seen, st.samples);
    assert Loadable(files, seen + more) == Loadable(files, seen) + Loadable(files, {path});
    assert path in Loadable(files, seen) <==> path in st.samples;
    if after.exhausted {
      RefusedTooMuch(files, budget, seen, path);
    } else if Regular(files, path) && path !in seen {
      LoadsNext(files, budget, seen, path);
    } else {
      assert seen + more == seen;
    }
  }

  lemma {:induction false} ConsultFaithful(files: Files, budget: nat, p: Parser, history: seq<Option<Data>>,
                                           seen: set<Path>, st: State)
    requires Faithful(files, budget, seen, st) && !st.exhausted
    ensures var (identified, after) := Consult(files, p, history, st);
            Faithful(files, budget, seen + Wanted(files, p, history), after) &&
            (!after.exhausted ==> identified == Identifies(files, p, history))
    decreases p.limit - |history|
  {
    hide Faithful, ReadFrom, Whole;
    if |history| < p.limit && p.next(history).Read? {
      var path := p.next(history).path;
      var (data, after) := ReadFrom(files, st, path);
      var more := if Regular(files, path) then {path} else {};
      ReadFaithful(files, budget, seen, st, path);
      assert seen + Wanted(files, p, history) == seen + more + Wanted(files, p, history + [Whole(files, path)]);
      if after.exhausted {
        ExhaustedFaithful(files, budget, p, history + [data], seen + more, after, seen + Wanted(files, p, history));
      } else {
        ConsultFaithful(files, budget, p, history + [data], seen + more, after);
      }
    } else {
      assert seen + {} == seen;
    }
  }

  lemma {:induction false} ConsultSampled(files: Files, budget: nat, p: Parser, history: seq<Option<Data>>, st: State)
    requires Balanced(budget, st) && Sampled(files, st.samples)
    ensures Sampled(files, Consult(files, p, history, st).1.samples)
    decreases p.limit - |history|
  {
    hide Balanced, ReadFrom, Sampled;
    if |history| < p.limit && p.next(history).Read? {
      var (data, after) := ReadFrom(files, st, p.next(history).path);
      ReadBalanced(files, budget, st, p.next(history).path);
      ConsultSampled(files, budget, p, history + [data], after);
    }
  }

  lemma ExhaustedFaithful(files: Files, budget: nat, p: Parser, history: seq<Option<Data>>, seen: set<Path>, st: State,
                          all: set<Path>)
    requires Faithful(files, budget, seen, st) && st.exhausted && seen <= all
    ensures Faithful(files, budget, all, Consult(files, p, history, st).1) && Consult(files, p, history, st).1.exhausted
  {
    ConsultBalanced(files, budget, p, history, st);
    ConsultSampled(files, budget, p, history, st);
    hide Fits, Balanced, Consult, Sampled;
    if Fits(files, budget, all) { FitsMonotone(files, budget, seen, all); }
  }

  /** Everything the parsers would read with unlimited evidence. */
  ghost function AllWanted(files: Files, parsers: seq<Parser>): set<Path> {
    if parsers == [] then {}
    else AllWanted(files, parsers[..|parsers| - 1]) + Wanted(files, parsers[|parsers| - 1], [])
  }

  ghost function AllIdentifying(files: Files, parsers: seq<Parser>): seq<Parser> {
    if parsers == [] then []
    else
      var (before, p) := (AllIdentifying(files, parsers[..|parsers| - 1]), parsers[|parsers| - 1]);
      if Identifies(files, p, []) then before + [p] else before
  }

  /** A contest that runs out of budget would read files that do not fit it. One
      that does not has read everything its parsers would read without limits,
      which loads in that order, and each of them has answered as it would. */
  lemma {:induction false} ContestFaithful(files: Files, budget: nat, parsers: seq<Parser>)
    ensures var (found, st) := Contest(files, parsers, State(budget, map[], false));
            Faithful(files, budget, AllWanted(files, parsers), st) &&
            (!st.exhausted ==> found == AllIdentifying(files, parsers))
  {
    hide Wanted, Identifies, Consult;
    if parsers == [] {
      assert CachedBytes(map[]) == 0;
      var none: seq<Path> := [];
      assert Elements(none) == {} && Loads(files, budget, none);
    } else {
      hide Faithful;
      var (earlier, p) := (parsers[..|parsers| - 1], parsers[|parsers| - 1]);
      ContestFaithful(files, budget, earlier);
      var (before, mid) := Contest(files, earlier, State(budget, map[], false));
      if mid.exhausted {
        ExhaustedFaithful(files, budget, p, [], AllWanted(files, earlier), mid, AllWanted(files, parsers));
      } else {
        ConsultFaithful(files, budget, p, [], AllWanted(files, earlier), mid);
      }
    }
  }

  // ---- The contest ----

  function Specificity(p: Parser): int { if p.manifest.Some? then p.manifest.value.specificity else 50 }
  function Confidence(p: Parser): real { if p.manifest.Some? then p.manifest.value.confidence else 0.5 }

  /** The order of (specificity, -confidence, name). */
  predicate Before(p: Parser, q: Parser) {
    Specificity(p) < Specificity(q) ||
    (Specificity(p) == Specificity(q) &&
      (Confidence(p) > Confidence(q) || (Confidence(p) == Confidence(q) && Less(p.name, q.name))))
  }

  ghost predicate UniqueNames(parsers: seq<Parser>) {
    forall i, j | 0 <= i < j < |parsers| :: parsers[i].name != parsers[j].name
  }

  datatype Verdict = Winner(name: Bytes) | NoParser | BudgetExceeded

  ghost predicate Foremost(found: seq<Parser>, i: nat) {
    i < |found| && forall j | 0 <= j < |found| :: !Before(found[j], found[i])
  }

  /** The winner identified the source, and no other parser that did comes before it. */
  ghost predicate Wins(found: seq<Parser>, name: Bytes) {
    exists i: nat :: Foremost(found, i) && found[i].name == name
  }

  ghost predicate IsVerdict(files: Files, budget: nat, entriesExhausted: bool, parsers: seq<Parser>, v: Verdict) {
    var (found, st) := Contest(files, parsers, State(budget, map[], false));
    if entriesExhausted || st.exhausted then v == BudgetExceeded
    else if found == [] then v == NoParser
    else v.Winner? && Wins(found, v.name)
  }

  /** As the manifests have it: a lower specificity leads, 50 without a manifest; at
      the same one a higher confidence, 0.5 without; at the same again no smaller name. */
  ghost predicate Leads(w: Parser, p: Parser) {
    var (a, b) := (if w.manifest.None? then 50 else w.manifest.value.specificity,
                   if p.manifest.None? then 50 else p.manifest.value.specificity);
    var (c, d) := (if w.manifest.None? then 0.5 else w.manifest.value.confidence,
                   if p.manifest.None? then 0.5 else p.manifest.value.confidence);
    a < b || (a == b && c > d) || (a == b && c == d && !Less(p.name, w.name))
  }

  lemma ForemostLeads(found: seq<Parser>, name: Bytes)
    requires Wins(found, name)
    ensures exists w :: w in found && w.name == name && forall p | p in found :: Leads(w, p)
  {
    var i: nat :| Foremost(found, i) && found[i].name == name;
    forall p | p in found ensures Leads(found[i], p) {
      var j :| 0 <= j < |found| && found[j] == p;
      assert !Before(found[j], found[i]);
      LessTotal(p.name, found[i].name);
    }
    assert found[i] in found;
  }

  class ParserRegistry {
    var registrations: seq<Parser>

    ghost predicate Valid()
      reads this
    {
      UniqueNames(registrations)
    }

    constructor ()
      ensures Valid() && registrations == []
    {
      registrations := [];
    }

    /** `register`: a taken name is refused, the earlier parser kept. */
    method Register(p: Parser, parserId: Option<Bytes>) returns (ok: bool)
      requires Valid()
      modifies this
      ensures Valid()
      ensures ok <==>
                (parserId.Some? ==> parserId.value == p.name) &&
                forall i | 0 <= i < |old(registrations)| :: old(registrations)[i].name != p.name
      ensures registrations == if ok then old(registrations) + [p] else old(registrations)
    {
      if parserId.Some? && parserId.value != p.name { return false; }
      for i := 0 to |registrations|
        invariant forall j | 0 <= j < i :: registrations[j].name != p.name
      {
        if registrations[i].name == p.name { return false; }
      }
      registrations := registrations + [p];
      return true;
    }

    /** `detect`: consult every parser on one shared sample, then the contest. */
    method Detect(files: Files, budget: nat, entriesExhausted: bool) returns (v: Verdict)
      requires Valid()
      ensures IsVerdict(files, budget, entriesExhausted, registrations, v)
      ensures v.Winner? ==>
                var found := Contest(files, registrations, State(budget, map[], false)).0;
                exists w :: w in found && w.name == v.name && forall p | p in found :: Leads(w, p)
    {
      hide Consult;
      var evidence := new DetectionEvidence(files, budget);
      var candidates: seq<Parser> := [];
      for n := 0 to |registrations|
        invariant evidence.Valid()
        invariant (candidates, evidence.Now()) == Contest(files, registrations[..n], State(budget, map[], false))
      {
        assert registrations[..n + 1][..n] == registrations[..n];
        var identified := evidence.Identify(registrations[n]);
        if identified { candidates := candidates + [registrations[n]]; }
      }
      assert registrations[..|registrations|] == registrations;
      if entriesExhausted || evidence.byteBudgetExhausted { return BudgetExceeded; }
      if candidates == [] { return NoParser; }
      var name := First(candidates);
      ForemostLeads(candidates, name);
      return Winner(name);
    }
  }

  /** The first of the sorted candidates. */
  method First(candidates: seq<Parser>) returns (name: Bytes)
    requires candidates != []
    ensures Wins(candidates, name)
  {
    var best: nat := 0;
    LessIrreflexive(candidates[0].name);
    for i := 1 to |candidates|
      invariant best < i
      invariant forall j | 0 <= j < i :: !Before(candidates[j], candidates[best])
    {
      if Before(candidates[i], candidates[best]) {
        forall j | 0 <= j <= i ensures !Before(candidates[j], candidates[i]) {
          LessIrreflexive(candidates[i].name);
          if Before(candidates[j], candidates[i]) { BeforeTransitive(candidates[j], candidates[i], candidates[best]); }
        }
        best := i;
      }
    }
    assert Foremost(candidates, best);
    return candidates[best].name;
  }

  lemma BeforeTotal(p: Parser, q: Parser)
    ensures p.name == q.name || Before(p, q) || Before(q, p)
  {
    LessTotal(p.name, q.name);
  }

  lemma BeforeTransitive(p: Parser, q: Parser, r: Parser)
    requires Before(p, q) && Before(q, r)
    ensures Before(p, r)
  {
    if Less(p.name, q.name) && Less(q.name, r.name) { LessTransitive(p.name, q.name, r.name); }
  }

  // ---- Registration order ----

  lemma {:induction false} WantedMembers(files: Files, parsers: seq<Parser>, x: Path)
    ensures x in AllWanted(files, parsers) <==> exists p :: p in parsers && x in Wanted(files, p, [])
  {
    hide Wanted;
    if parsers != [] {
      var earlier, last := parsers[..|parsers| - 1], parsers[|parsers| - 1];
      WantedMembers(files, earlier, x);
      assert parsers == earlier + [last];
      forall p ensures p in parsers <==> p in earlier || p == last {}
      assert last in parsers;
      assert x in AllWanted(files, parsers) <==> x in AllWanted(files, earlier) || x in Wanted(files, last, []);
    }
  }

  lemma {:induction false} IdentifyingMembers(files: Files, parsers: seq<Parser>, p: Parser)
    ensures p in AllIdentifying(files, parsers) <==> p in parsers && Identifies(files, p, [])
  {
    hide Identifies;
    if parsers != [] {
      IdentifyingMembers(files, parsers[..|parsers| - 1], p);
      assert parsers == parsers[..|parsers| - 1] + [parsers[|parsers| - 1]];
    }
  }

  /** The same parsers, whatever the order. */
  ghost predicate SameParsers(p: seq<Parser>, q: seq<Parser>) {
    forall x :: x in p <==> x in q
  }

  lemma WinnerUnique(found: seq<Parser>, found2: seq<Parser>, a: Bytes, b: Bytes)
    requires SameParsers(found, found2) && Wins(found, a) && Wins(found2, b)
    ensures a == b
  {
    var i: nat :| Foremost(found, i) && found[i].name == a;
    var j: nat :| Foremost(found2, j) && found2[j].name == b;
    ghost var p, q := found[i], found2[j];
    assert p in found && q in found2;
    assert p in found2 && q in found;
    BeforeTotal(p, q);
  }

  /** What loads somehow fits, without a gap. */
  lemma LoadsFits(files: Files, budget: nat, s: set<Path>)
    requires NoGap(files, budget) && LoadsSomehow(files, budget, s)
    ensures Fits(files, budget, s)
  {
    hide Loads, Fits;
    var list :| Elements(list) == s && Loads(files, budget, list);
  }

  /** Without a gap the verdict does not depend on the order of registration,
      whatever the parsers choose to read; and the budget runs out exactly when
      what they would read does not fit it. */
  lemma OrderIndependent(files: Files, budget: nat, entriesExhausted: bool, p: seq<Parser>, q: seq<Parser>, v: Verdict,
                         w: Verdict)
    requires NoGap(files, budget) && SameParsers(p, q)
    requires IsVerdict(files, budget, entriesExhausted, p, v) && IsVerdict(files, budget, entriesExhausted, q, w)
    ensures v == w
    ensures v == BudgetExceeded <==> entriesExhausted || !Fits(files, budget, AllWanted(files, p))
  {
    hide NoGap, Contest, Fits, Wins, LoadsSomehow, Balanced, Sampled, Loadable;
    ContestFaithful(files, budget, p);
    ContestFaithful(files, budget, q);
    forall x ensures x in AllWanted(files, p) <==> x in AllWanted(files, q) {
      WantedMembers(files, p, x);
      WantedMembers(files, q, x);
    }
    assert AllWanted(files, p) == AllWanted(files, q);
    if LoadsSomehow(files, budget, AllWanted(files, p)) { LoadsFits(files, budget, AllWanted(files, p)); }
    var found, found2 := AllIdentifying(files, p), AllIdentifying(files, q);
    forall x ensures x in found <==> x in found2 {
      IdentifyingMembers(files, p, x);
      IdentifyingMembers(files, q, x);
    }
    assert found == [] <==> found2 == [] by {
      if found != [] { assert found[0] in found2; }
      if found2 != [] { assert found2[0] in found; }
    }
    if v.Winner? && w.Winner? { WinnerUnique(found, found2, v.name, w.name); }
  }

  // ---- Where the order does matter ----

  /** A parser that reads a list of files and says no. */
  function Reader(name: Bytes, list: seq<Path>): Parser {
    Parser(name, None, (h: seq<Option<Data>>) => if |h| < |list| then Read(list[|h|]) else Answer(false), |list| + 1)
  }

  /** A reader stops having read its whole list, in order. */
  lemma {:induction false} ReaderReads(files: Files, name: Bytes, list: seq<Path>, history: seq<Option<Data>>,
                                       st: State)
    requires |history| <= |list|
    ensures Consult(files, Reader(name, list), history, st).1 == ReadAll(files, list[|history|..], st)
    decreases |list| - |history|
  {
    hide ReadFrom;
    if |history| < |list| {
      var (data, after) := ReadFrom(files, st, list[|history|]);
      assert list[|history|..][1..] == list[|history| + 1..];
      ReaderReads(files, name, list, history + [data], after);
    } else {
      assert list[|history|..] == [];
    }
  }

  function ReadAll(files: Files, list: seq<Path>, st: State): State {
    if list == [] then st else ReadAll(files, list[1..], ReadFrom(files, st, list[0]).1)
  }

  lemma {:induction false} ReadAllConcat(files: Files, p: seq<Path>, q: seq<Path>, st: State)
    ensures ReadAll(files, p + q, st) == ReadAll(files, q, ReadAll(files, p, st))
  {
    hide ReadFrom;
    if p == [] {
      assert p + q == q;
    } else {
      assert (p + q)[1..] == p[1..] + q;
      ReadAllConcat(files, p[1..], q, ReadFrom(files, st, p[0]).1);
    }
  }

  /** Distinct regular files read in order from a full budget: their charges are
      gone from it, unless one of them was refused, as the last for instance. */
  lemma {:induction false} ReadAllLoads(files: Files, budget: nat, list: seq<Path>)
    requires Distinct(list) && forall p | p in list :: Regular(files, p)
    ensures var st := ReadAll(files, list, State(budget, map[], false));
            Balanced(budget, st) && Sampled(files, st.samples) && st.samples.Keys <= Elements(list) &&
            (!st.exhausted <==> Loads(files, budget, list)) &&
            (!st.exhausted ==> st.samples.Keys == Loadable(files, Elements(list)))
  {
    if list == [] {
      assert CachedBytes(map[]) == 0;
    } else {
      hide Load, Loads, Loadable, Sampled, CachedBytes, ReadFrom, ReadAll;
      var before, last := list[..|list| - 1], list[|list| - 1];
      assert list == before + [last];
      ReadAllLoads(files, budget, before);
      var mid := ReadAll(files, before, State(budget, map[], false));
      LastRead(files, before, last, State(budget, map[], false));
      ReadBalanced(files, budget, mid, last);
      AppendElements(before, last);
      assert last !in before;
      LoadsLast(files, budget, list);
      if !mid.exhausted {
        LoadIsCached(files, Elements(before), mid.samples);
        LoadableAdd(files, Elements(before), last);
      }
    }
  }

  lemma LastRead(files: Files, before: seq<Path>, last: Path, st: State)
    ensures ReadAll(files, before + [last], st) == ReadFrom(files, ReadAll(files, before, st), last).1
  {
    hide ReadFrom;
    ReadAllConcat(files, before, [last], st);
    assert [last][1..] == [];
  }

  lemma LoadableAdd(files: Files, s: set<Path>, p: Path)
    ensures Loadable(files, s + {p}) == Loadable(files, s) + Loadable(files, {p})
    ensures Loadable(files, {p}) <= {p}
  {}

  lemma LoadsLast(files: Files, budget: nat, list: seq<Path>)
    requires list != [] && Distinct(list) && forall p | p in list :: Regular(files, p)
    ensures var before, last := list[..|list| - 1], list[|list| - 1];
            Loads(files, budget, list) <==>
              Loads(files, budget, before) && Size(files, last) + Load(files, Elements(before)) <= budget
  {
    hide Load;
    var before, last := list[..|list| - 1], list[|list| - 1];
    assert forall p | p in before :: p in list;
    forall i | 0 <= i < |before| ensures before[..i] == list[..i] && before[i] == list[i] {}
    if Loads(files, budget, list) {
      forall i | 0 <= i < |before| ensures Size(files, before[i]) + Load(files, Elements(before[..i])) <= budget {
        assert Size(files, list[i]) + Load(files, Elements(list[..i])) <= budget;
      }
      assert Size(files, list[|list| - 1]) + Load(files, Elements(list[..|list| - 1])) <= budget;
    }
    if Loads(files, budget, before) && Size(files, last) + Load(files, Elements(before)) <= budget {
      forall i | 0 <= i < |list| ensures Size(files, list[i]) + Load(files, Elements(list[..i])) <= budget {
        if i < |before| { assert Size(files, before[i]) + Load(files, Elements(before[..i])) <= budget; }
      }
    }
  }

  function Readers(list: seq<Path>, i: nat): (Parser, Parser, Parser)
    requires i < |list|
  {
    (Reader([], list[..i]), Reader([1], [list[i]]), Reader([2], list[i + 1..]))
  }

  lemma ThreeParsers(files: Files, p: Parser, q: Parser, r: Parser, st: State)
    ensures Contest(files, [p, q, r], st).1 ==
              Consult(files, r, [], Consult(files, q, [], Consult(files, p, [], st).1).1).1
  {
    hide Consult;
    assert [p, q, r][..2] == [p, q] && [p, q][..1] == [p] && [p][..0] == [];
    assert Contest(files, [p], st).1 == Consult(files, p, [], st).1;
    assert Contest(files, [p, q], st).1 == Consult(files, q, [], Consult(files, p, [], st).1).1;
  }

  /** The readers of three stretches of a list, one after the other. */
  lemma ReadersRead(files: Files, a: Bytes, p: seq<Path>, b: Bytes, q: seq<Path>, c: Bytes, r: seq<Path>, st: State)
    ensures Contest(files, [Reader(a, p), Reader(b, q), Reader(c, r)], st).1 == ReadAll(files, p + q + r, st)
  {
    hide Consult, ReadAll, Reader, Contest;
    ThreeParsers(files, Reader(a, p), Reader(b, q), Reader(c, r), st);
    var st1 := Consult(files, Reader(a, p), [], st).1;
    var st2 := Consult(files, Reader(b, q), [], st1).1;
    assert p[0..] == p && q[0..] == q && r[0..] == r;
    ReaderReads(files, a, p, [], st);
    ReaderReads(files, b, q, [], st1);
    ReaderReads(files, c, r, [], st2);
    ReadAllConcat(files, p, q, st);
    ReadAllConcat(files, p + q, r, st);
  }

  /** A list that loads while one of its files would not be read last: the readers
      of that file and of the files around it exhaust the budget in one order of
      registration and not in another. */
  lemma GapOrders(files: Files, budget: nat, list: seq<Path>, i: nat)
    requires Loads(files, budget, list) && i < |list|
    requires Size(files, list[i]) + Load(files, Elements(list) - {list[i]}) > budget
    ensures var (p, q, r) := Readers(list, i);
            !Contest(files, [p, q, r], State(budget, map[], false)).1.exhausted &&
            Contest(files, [p, r, q], State(budget, map[], false)).1.exhausted
  {
    hide Contest, Load;
    var f := list[i];
    var others := list[..i] + list[i + 1..];
    var last := list[..i] + list[i + 1..] + [f];
    assert list[..i] + [f] + list[i + 1..] == list;
    ReadersRead(files, [], list[..i], [1], [f], [2], list[i + 1..], State(budget, map[], false));
    ReadersRead(files, [], list[..i], [2], list[i + 1..], [1], [f], State(budget, map[], false));
    ReadAllLoads(files, budget, list);
    LastDistinct(list, i);
    assert forall p | p in last :: p in list;
    ReadAllLoads(files, budget, last);
    assert last[..|last| - 1] == others;
    LoadsLast(files, budget, last);
  }

  lemma LastDistinct(list: seq<Path>, i: nat)
    requires Distinct(list) && i < |list|
    ensures var others := list[..i] + list[i + 1..];
            Distinct(others + [list[i]]) && Elements(others) == Elements(list) - {list[i]} &&
            forall p :: p in others + [list[i]] <==> p in list
  {
    var f, others := list[i], list[..i] + list[i + 1..];
    assert forall j | 0 <= j < |others| :: others[j] == list[if j < i then j else j + 1];
    forall p ensures p in others <==> p in list && p != f {
      if p in others {
        var j :| 0 <= j < |others| && others[j] == p;
        assert list[if j < i then j else j + 1] == p;
      }
      if p in list && p != f {
        var j :| 0 <= j < |list| && list[j] == p;
        assert others[if j < i then j else j - 1] == p;
      }
    }
  }

  ghost predicate OrderNeverMatters(files: Files, budget: nat) {
    forall p, q, v, w | SameParsers(p, q) && UniqueNames(p) && UniqueNames(q) &&
                        IsVerdict(files, budget, false, p, v) && IsVerdict(files, budget, false, q, w) :: v == w
  }

  /** Exactly when registration order is irrelevant to every set of parsers: when
      every list of files that loads fits. Nothing is assumed of the files. */
  lemma OrderNeverMattersIff(files: Files, budget: nat)
    ensures OrderNeverMatters(files, budget) <==> NoGap(files, budget)
  {
    hide Loads, Fits, Load;
    if NoGap(files, budget) {
      forall p, q, v, w | SameParsers(p, q) && UniqueNames(p) && UniqueNames(q) &&
                          IsVerdict(files, budget, false, p, v) && IsVerdict(files, budget, false, q, w)
        ensures v == w
      {
        OrderIndependent(files, budget, false, p, q, v, w);
      }
    } else {
      var list :| Loads(files, budget, list) && !Fits(files, budget, Elements(list));
      GapMatters(files, budget, list);
    }
  }

  lemma GapMatters(files: Files, budget: nat, list: seq<Path>)
    requires Loads(files, budget, list) && !Fits(files, budget, Elements(list))
    ensures !OrderNeverMatters(files, budget)
  {
    hide Contest, Wins, Load, Loads;
    var f :| f in Elements(list) && Size(files, f) + Load(files, Elements(list) - {f}) > budget;
    var i: nat :| i < |list| && list[i] == f;
    GapOrders(files, budget, list, i);
    var (p, q, r) := Readers(list, i);
    assert SameParsers([p, q, r], [p, r, q]) && UniqueNames([p, q, r]) && UniqueNames([p, r, q]);
    var v := VerdictExists(files, budget, [p, q, r]);
    assert IsVerdict(files, budget, false, [p, r, q], BudgetExceeded);
    assert v != BudgetExceeded;
  }

  lemma VerdictExists(files: Files, budget: nat, parsers: seq<Parser>) returns (v: Verdict)
    ensures IsVerdict(files, budget, false, parsers, v)
  {
    var (found, st) := Contest(files, parsers, State(budget, map[], false));
    if st.exhausted {
      v := BudgetExceeded;
    } else if found == [] {
      v := NoParser;
    } else {
      var i := ForemostExists(found);
      v := Winner(found[i].name);
    }
  }

  lemma {:induction false} ForemostExists(found: seq<Parser>) returns (i: nat)
    requires found != []
    ensures Foremost(found, i)
  {
    var last := |found| - 1;
    LessIrreflexive(found[last].name);
    if last == 0 {
      i := 0;
    } else {
      i := ForemostExists(found[..last]);
      if Before(found[last], found[i]) {
        forall j | 0 <= j < |found| ensures !Before(found[j], found[last]) {
          assert j < last ==> found[..last][j] == found[j];
          if Before(found[j], found[last]) { BeforeTransitive(found[j], found[last], found[i]); }
        }
        i := last;
      } else {
        forall j | 0 <= j < |found| ensures !Before(found[j], found[i]) {
          assert j < last ==> found[..last][j] == found[j];
        }
      }
    }
  }

  /** Every regular file reads as long as it was listed. */
  ghost predicate ReadsAsListed(files: Files) {
    forall p | Regular(files, p) :: Charge(files, p) == Size(files, p)
  }

  lemma FitsIsTotal(files: Files, budget: nat, s: set<Path>)
    requires ReadsAsListed(files) && forall p | p in s :: Regular(files, p)
    ensures Fits(files, budget, s) <==> Load(files, s) <= budget
  {
    hide Load, Size, Charge;
    forall p | p in s ensures Size(files, p) + Load(files, s - {p}) == Load(files, s) { LoadRemove(files, s, p); }
    LoadNone(files);
    if s != {} {
      var p :| p in s;
      assert Size(files, p) + Load(files, s - {p}) == Load(files, s);
    }
  }

  lemma LoadsTotal(files: Files, budget: nat, list: seq<Path>)
    requires ReadsAsListed(files) && Loads(files, budget, list)
    ensures Load(files, Elements(list)) <= budget
  {
    hide Load, Size, Charge;
    if list == [] {
      LoadNone(files);
      assert Elements(list) == {};
    } else {
      LoadsLast(files, budget, list);
      var before, last := list[..|list| - 1], list[|list| - 1];
      assert list == before + [last];
      AppendElements(before, last);
      assert last !in before;
      LoadAdd(files, Elements(before), last);
    }
  }

  /** Then there is no gap, and files fit exactly when their sizes together do. */
  lemma ListedSizesNoGap(files: Files, budget: nat)
    requires ReadsAsListed(files)
    ensures NoGap(files, budget)
    ensures forall s: set<Path> | (forall p | p in s :: Regular(files, p)) ::
              Fits(files, budget, s) <==> Load(files, s) <= budget
  {
    forall s: set<Path> | (forall p | p in s :: Regular(files, p))
      ensures Fits(files, budget, s) <==> Load(files, s) <= budget
    {
      FitsIsTotal(files, budget, s);
    }
    forall list | Loads(files, budget, list) ensures Fits(files, budget, Elements(list)) {
      LoadsTotal(files, budget, list);
      FitsIsTotal(files, budget, Elements(list));
    }
  }

  /** Two files of which the first loads only before the second. */
  lemma TwoFileGap(files: Files, budget: nat, f: Path, g: Path)
    requires Regular(files, f) && Regular(files, g) && f != g
    requires Size(files, f) <= budget && Size(files, g) + Charge(files, f) <= budget
    requires Size(files, f) + Charge(files, g) > budget
    ensures !OrderNeverMatters(files, budget)
  {
    var list := [f, g];
    LoadNone(files);
    LoadAdd(files, {}, f);
    LoadAdd(files, {}, g);
    assert {} + {f} == {f} && {} + {g} == {g};
    assert list[..0] == [] && list[..1] == [f];
    assert Elements(list) - {f} == {g};
    assert Elements(list[..1]) == {f} && Elements(list[..0]) == {};
    assert f in Elements(list);
    hide Load, Size, Charge, Fits;
    assert Loads(files, budget, list);
    NotLast(files, budget, Elements(list), f);
    OrderNeverMattersIff(files, budget);
  }

  lemma NotLast(files: Files, budget: nat, s: set<Path>, f: Path)
    requires f in s && Size(files, f) + Load(files, s - {f}) > budget
    ensures !Fits(files, budget, s)
  {}

  const NINE_BYTES: Data := [0, 0, 0, 0, 0, 0, 0, 0, 0]

  /** Ten bytes of budget and nine bytes that anyone may read; beside them ten
      bytes nobody may read, or a file listed with ten that gives one. */
  lemma GapExamples()
    ensures !OrderNeverMatters(map["a" := Entry(10, true, None), "b" := Entry(9, true, Some(NINE_BYTES))], 10)
    ensures !OrderNeverMatters(map["a" := Entry(10, true, Some([0])), "b" := Entry(9, true, Some(NINE_BYTES))], 10)
  {
    hide OrderNeverMatters;
    TwoFileGap(map["a" := Entry(10, true, None), "b" := Entry(9, true, Some(NINE_BYTES))], 10, "a", "b");
    TwoFileGap(map["a" := Entry(10, true, Some([0])), "b" := Entry(9, true, Some(NINE_BYTES))], 10, "a", "b");
  }

  // ---- Collecting the sample ----

  /** A directory as the walk sees it: its real subdirectories and its other
      entries, each in name order. */
  datatype Dir = Dir(children: seq<Child>, files: seq<string>)
  datatype Child = Child(name: string, dir: Dir)

  function Entries(d: Dir): nat { |d.children| + |d.files| + EntriesOf(d.children) }

  function EntriesOf(q: seq<Child>): nat { if q == [] then 0 else Entries(q[0].dir) + EntriesOf(q[1..]) }

  /** Every file below, each directory before its subdirectories. */
  function FilesIn(at: Path, d: Dir): seq<Path>
    decreases d
  {
    Named(at, d.files) + FilesOf(at, d.children)
  }

  function FilesOf(at: Path, q: seq<Child>): seq<Path>
    decreases q
  {
    if q == [] then [] else FilesIn(at + q[0].name + "/", q[0].dir) + FilesOf(at, q[1..])
  }

  function Named(at: Path, names: seq<string>): seq<Path> {
    seq(|names|, i requires 0 <= i < |names| => at + names[i])
  }

  type Stack = seq<(Path, Dir)>

  function PendingEntries(stack: Stack): nat {
    if stack == [] then 0 else Entries(stack[0].1) + PendingEntries(stack[1..])
  }

  function PendingFiles(stack: Stack): seq<Path> {
    if stack == [] then [] else FilesIn(stack[0].0, stack[0].1) + PendingFiles(stack[1..])
  }

  function Below(at: Path, q: seq<Child>): (r: Stack)
    ensures |r| == |q|
  {
    seq(|q|, i requires 0 <= i < |q| => (at + q[i].name + "/", q[i].dir))
  }

  lemma {:induction false} Push(at: Path, q: seq<Child>, stack: Stack)
    ensures PendingEntries(Below(at, q) + stack) == EntriesOf(q) + PendingEntries(stack)
    ensures PendingFiles(Below(at, q) + stack) == FilesOf(at, q) + PendingFiles(stack)
  {
    if q == [] {
      assert Below(at, q) + stack == stack;
    } else {
      assert Below(at, q) + stack == [(at + q[0].name + "/", q[0].dir)] + (Below(at, q[1..]) + stack);
      Push(at, q[1..], stack);
    }
  }

  lemma Pop(stack: Stack)
    requires stack != []
    ensures var (at, dir) := stack[0];
            PendingEntries(stack) ==
              |dir.children| + |dir.files| + EntriesOf(dir.children) + PendingEntries(stack[1..]) &&
            PendingFiles(stack) == Named(at, dir.files) + FilesOf(at, dir.children) + PendingFiles(stack[1..])
  {
    hide Named, EntriesOf, FilesOf;
  }

  lemma NamedNext(at: Path, names: seq<string>, i: nat)
    requires i < |names|
    ensures Named(at, names[..i + 1]) == Named(at, names[..i]) + [at + names[i]]
  {
  }

  /** `collect`: reaching the entry budget counts as exhausting it, even when
      nothing is left; a sample that does not reach it is the whole tree. */
  method Collect(root: Dir, budget: nat) returns (files: seq<Path>, exhausted: bool)
    ensures exhausted <==> Entries(root) >= budget
    ensures Entries(root) <= budget ==> files == FilesIn("", root)
    ensures files <= FilesIn("", root) && |files| <= budget
  {
    hide PendingEntries, PendingFiles, FilesIn, FilesOf, Entries, EntriesOf, Named, Below;
    files, exhausted := [], false;
    var seen := 0;
    var stack: Stack := [("", root)];
    Only("", root);
    while stack != []
      invariant seen + PendingEntries(stack) == Entries(root) && files + PendingFiles(stack) == FilesIn("", root)
      invariant stack != [] || seen < budget
      invariant |files| <= seen <= budget
      decreases |stack| + PendingEntries(stack)
    {
      Pop(stack);
      var at, dir := stack[0].0, stack[0].1;
      var rest := stack[1..];
      for i := 0 to |dir.children|
        invariant seen + (|dir.children| - i) + |dir.files| + EntriesOf(dir.children) + PendingEntries(rest) ==
                    Entries(root)
        invariant |files| <= seen <= budget
      {
        if seen >= budget { return files, true; }
        seen := seen + 1;
      }
      ghost var before := files;
      NoneNamed(at, dir.files);
      for i := 0 to |dir.files|
        invariant seen + (|dir.files| - i) + EntriesOf(dir.children) + PendingEntries(rest) == Entries(root)
        invariant files == before + Named(at, dir.files[..i]) && |files| <= seen <= budget
      {
        if seen >= budget {
          NamedPrefix(at, dir.files, i);
          return files, true;
        }
        seen := seen + 1;
        NamedNext(at, dir.files, i);
        files := files + [at + dir.files[i]];
      }
      assert dir.files[..|dir.files|] == dir.files;
      Push(at, dir.children, rest);
      BelowSize(at, dir.children);
      stack := Below(at, dir.children) + rest;
      if seen >= budget {
        if PendingEntries(stack) == 0 { NothingLeft(stack); }
        return files, true;
      }
    }
    NothingPending();
  }

  /** One file, an entry budget of one: its sample is whole, and refused. */
  method RefusedWhole() returns (files: seq<Path>, exhausted: bool)
    ensures files == ["a"] == FilesIn("", Dir([], ["a"])) && exhausted
  {
    var root := Dir([], ["a"]);
    assert FilesIn("", root) == Named("", ["a"]) + FilesOf("", []);
    assert "" + "a" == "a";
    assert EntriesOf([]) == 0 && Named("", ["a"])[0] == "a";
    files, exhausted := Collect(root, 1);
  }

  lemma NamedPrefix(at: Path, names: seq<string>, i: nat)
    requires i <= |names|
    ensures Named(at, names[..i]) <= Named(at, names)
  {}

  /** Directories without entries have no files. */
  lemma {:induction false} NothingLeft(stack: Stack)
    requires PendingEntries(stack) == 0
    ensures PendingFiles(stack) == []
  {
    if stack != [] {
      NothingLeft(stack[1..]);
      Pop(stack);
      var (at, dir) := stack[0];
      assert dir.children == [] && dir.files == [];
      assert Named(at, dir.files) == [] && FilesOf(at, dir.children) == [];
    }
  }

  lemma Only(at: Path, root: Dir)
    ensures PendingEntries([(at, root)]) == Entries(root) && PendingFiles([(at, root)]) == FilesIn(at, root)
  {
    hide Entries, FilesIn;
  }

  lemma NothingPending()
    ensures PendingEntries([]) == 0 && PendingFiles([]) == []
  {}

  lemma NoneNamed(at: Path, names: seq<string>)
    ensures Named(at, names[..0]) == []
  {}

  lemma BelowSize(at: Path, q: seq<Child>)
    ensures |Below(at, q)| == |q|
  {}
}
