/** One build's identity and progress, kept in two databases that commit
    separately: the private checkpoint and the output. A process may die after
    any commit; a later process resumes from what both hold. */
module RunProtocol {
  import opened Wrappers
  import opened Collections

  type Key = int

  /** Every row of every table but `versions` and the trust metadata. */
  type Data = seq<Row>

  /** A row, opaque but for the version stamped on a row of an entity table. */
  datatype Row = Row(content: int, entityOf: Option<nat>)

  /** The rows of entity tables that carry a version. */
  ghost function EntitiesOf(data: Data, version: nat): set<int> {
    set i | 0 <= i < |data| && data[i].entityOf == Some(version)
  }

  lemma {:induction false} CountedEntities(data: Data, version: nat)
    ensures EntityCount(data, version) == |EntitiesOf(data, version)|
    decreases |data|
  {
    if data != [] {
      var n := |data| - 1;
      CountedEntities(data[..n], version);
      assert EntitiesOf(data, version) ==
             EntitiesOf(data[..n], version) + if data[n].entityOf == Some(version) then {n} else {};
      assert n !in EntitiesOf(data[..n], version);
    }
  }

  /** How many there are, as the pipeline counts them. */
  function EntityCount(data: Data, version: nat): nat {
    if data == [] then 0
    else EntityCount(data[..|data| - 1], version) + if data[|data| - 1].entityOf == Some(version) then 1 else 0
  }

  /** What a checkpoint is bound to: the identity intent. */
  datatype Settings = Settings(source: string, parser: string, skipHygeia: bool, fingerprint: Option<string>)

  /** The source identity in a version's metadata: none (only the path), a
      guessable digest, or a keyed HMAC. HMAC and digest are injective. */
  datatype Identity = Unstated | Digest(source: string, runId: string) | Hmac(source: string, runId: string, key: Key)

  /** A row of `versions`; its id is its position. A completed one has its
      entity count. */
  datatype Version = Version(runId: string, parser: string, source: string, identity: Identity, completed: Option<nat>)

  /** The sanitizer's marker. Verified names the content its final scan saw. */
  datatype Trust = Unmarked | Failed | Verified(versions: seq<Version>, data: Data)

  /** The output database; `schema` counts the initialization steps done. */
  datatype Output = Output(schema: nat, versions: seq<Version>, data: Data, trust: Trust)

  /** The file, the 61 statements of the five schema scripts, each of which
      commits by itself, and the schema version row. */
  const SCHEMA_STEPS: nat := 63

  /** The core script's third statement creates `metadata`, its twelfth `versions`. */
  const CORE_STEPS: nat := 13

  datatype State = Prepared | Bound | Upgrading

  /** The private identity: absent in checkpoints of older builds. */
  datatype Private = NoKey | Private(state: State, key: Key, intent: Settings)

  datatype Status = Running | Complete | Broken

  datatype PhaseRow = PhaseRow(name: string, status: Status)

  type Phases = map<nat, PhaseRow>

  /** The checkpoint database: the file with 0, 1 or 2 tables and no metadata,
      or with its metadata committed. */
  datatype Checkpoint =
    | Blank(tables: nat)
    | Saved(runId: string, versionId: Option<nat>, fingerprint: Option<string>, secret: Private, mustSanitize: bool,
            phases: Phases)

  type Clean = (seq<Version>, Data) -> bool

  // ---- Durable states ----

  function RowOf(versions: seq<Version>, runId: string): (i: Option<nat>)
    ensures i.Some? ==> i.value < |versions| && versions[i.value].runId == runId
    ensures i.None? ==> forall j | 0 <= j < |versions| :: versions[j].runId != runId
  {
    if versions == [] then None
    else if versions[|versions| - 1].runId == runId then Some(|versions| - 1)
    else RowOf(versions[..|versions| - 1], runId)
  }

  function Versions(out: Option<Output>): seq<Version> {
    if out.Some? then out.value.versions else []
  }

  /** `_empty_prepared_output`: missing, or nothing but (part of) a new schema. */
  predicate EmptyOutput(out: Option<Output>) {
    out.Some? ==> out.value.versions == [] && out.value.data == [] && out.value.trust == Unmarked
  }

  /** Tables exist before rows; `versions.run_id` is unique. */
  ghost predicate WellFormed(out: Output) {
    out.schema <= SCHEMA_STEPS && (out.schema < CORE_STEPS ==> EmptyOutput(Some(out))) &&
    forall i, j | 0 <= i < j < |out.versions| :: out.versions[i].runId != out.versions[j].runId
  }

  /** A verified marker stands beside exactly the content its scan found clean. */
  ghost predicate Honest(clean: Clean, out: Output) {
    out.trust.Verified? ==>
      out.trust.versions == out.versions && out.trust.data == out.data && clean(out.versions, out.data)
  }

  ghost predicate Sound(clean: Clean, out: Option<Output>) {
    out.Some? ==> WellFormed(out.value) && Honest(clean, out.value)
  }

  /** Phases before k are complete; k may have started; none after k has. */
  ghost predicate UpTo(names: seq<string>, phases: Phases, k: nat) {
    k <= |names| &&
    (forall j: nat | j < k :: j in phases && phases[j].status == Complete) &&
    (forall j | j in phases :: j <= k && j < |names| && phases[j].name == names[j])
  }

  /** The completed phases are a prefix of the list. */
  ghost predicate Prefix(names: seq<string>, phases: Phases) {
    exists k: nat :: UpTo(names, phases, k)
  }

  /** The build: its settings and phases, what the scan calls clean, and the
      output it started from. */
  datatype Build = Build(settings: Settings, names: seq<string>, clean: Clean, base: Option<Output>) {
    /** `sanitize` can only be the last phase. */
    ghost predicate Valid() {
      Sound(clean, base) && forall i | 0 <= i < |names| - 1 :: names[i] != "sanitize"
    }
  }

  predicate Sanitizes(names: seq<string>) { |names| > 0 && names[|names| - 1] == "sanitize" }

  function NewVersion(s: Settings, runId: string, key: Key): Version {
    Version(runId, s.parser, s.source, Hmac(s.source, runId, key), None)
  }

  /** Row i is the run's only row, every other row is as the build found it. */
  ghost predicate OnlyRow(base: seq<Version>, now: seq<Version>, runId: string, i: nat) {
    i <= |base| && i < |now| && |now| == (if i < |base| then |base| else i + 1) &&
    (i < |base| ==> base[i].runId == runId) && now[i].runId == runId &&
    forall j | 0 <= j < |now| && j != i :: now[j] == base[j] && now[j].runId != runId
  }

  /** A row written before keyed identities, for this source. */
  predicate LegacyRow(s: Settings, runId: string, v: Version) {
    v.identity == Digest(s.source, runId) || (v.identity == Unstated && v.source == s.source)
  }

  ghost predicate Unpublished(b: Build, runId: string, out: Option<Output>) {
    RowOf(Versions(b.base), runId).None? &&
    if EmptyOutput(b.base) then EmptyOutput(out) else out == b.base
  }

  ghost predicate Published(b: Build, c: Checkpoint, out: Option<Output>, i: nat)
    requires c.Saved?
  {
    out.Some? && out.value.schema >= CORE_STEPS && OnlyRow(Versions(b.base), out.value.versions, c.runId, i) &&
    out.value.versions[i].parser == b.settings.parser
  }

  ghost predicate Keyed(b: Build, c: Checkpoint, out: Option<Output>, i: nat)
    requires c.Saved? && c.secret.Private?
  {
    Published(b, c, out, i) && out.value.versions[i].identity == Hmac(b.settings.source, c.runId, c.secret.key)
  }

  ghost predicate Older(b: Build, c: Checkpoint, out: Option<Output>, i: nat)
    requires c.Saved?
  {
    Published(b, c, out, i) && out.value.versions == Versions(b.base) &&
    LegacyRow(b.settings, c.runId, out.value.versions[i])
  }

  /** What each identity state guarantees about the two databases. */
  ghost predicate InBuild(b: Build, c: Checkpoint, out: Option<Output>)
    requires c.Saved?
  {
    (b.settings.fingerprint.Some? ==> c.fingerprint == b.settings.fingerprint) &&
    Prefix(b.names, c.phases) &&
    (c.secret.Private? ==> c.secret.intent == b.settings) &&
    match c.secret
    case Private(Prepared, _, _) =>
      c.versionId.None? && c.phases == map[] && !c.mustSanitize &&
      (Unpublished(b, c.runId, out) || Keyed(b, c, out, |Versions(b.base)|))
    case Private(Bound, _, _) => c.versionId.Some? && Keyed(b, c, out, c.versionId.value)
    case Private(Upgrading, _, _) =>
      c.mustSanitize && c.versionId.Some? &&
      (Keyed(b, c, out, c.versionId.value) || Older(b, c, out, c.versionId.value))
    case NoKey => c.versionId.Some? && Older(b, c, out, c.versionId.value)
  }

  ghost predicate Durable(b: Build, cp: Option<Checkpoint>, out: Option<Output>) {
    Sound(b.clean, out) &&
    match cp
    case None => out == b.base
    case Some(Blank(tables)) => out == b.base && tables <= 2
    case Some(Saved(_, _, _, _, _, _)) => InBuild(b, cp.value, out)
  }

  /** Nothing resumes from here: no metadata, or an intent without its version
      beside an output that was not empty. */
  ghost predicate Stuck(cp: Option<Checkpoint>, out: Option<Output>) {
    cp.Some? && (cp.value.Blank? ||
                 (cp.value.secret.Private? && cp.value.secret.state == Prepared &&
                  RowOf(Versions(out), cp.value.runId).None? && !EmptyOutput(out)))
  }

  /** The build is over: its version completed with its entities counted, under
      the run id it began with. */
  ghost predicate Done(b: Build, cp: Option<Checkpoint>, out: Option<Output>, runId: string) {
    cp.None? && out.Some? && Sound(b.clean, out) &&
    (exists i: nat :: OnlyRow(Versions(b.base), out.value.versions, runId, i) &&
       out.value.versions[i].completed == Some(|EntitiesOf(out.value.data, i)|) &&
       exists key :: out.value.versions[i].identity == Hmac(b.settings.source, runId, key)) &&
    (Sanitizes(b.names) <==> out.value.trust.Verified?)
  }

  /** While a checkpoint exists, every HMAC this run has published can be
      recomputed from the key in that checkpoint. */
  lemma PublishedKeyHeld(b: Build, cp: Option<Checkpoint>, out: Option<Output>, i: nat)
    requires Durable(b, cp, out) && i < |Versions(out)|
    requires i >= |Versions(b.base)| || Versions(out)[i] != Versions(b.base)[i]
    ensures cp.Some? && cp.value.Saved? && cp.value.secret.Private?
    ensures Versions(out)[i].identity == Hmac(b.settings.source, cp.value.runId, cp.value.secret.key)
  {
  }

  /** In every durable state of a build the completed phases are a prefix, the
      output has at most one row of the run and every other row as it found it,
      and a verified marker stands only beside the clean content it was given for. */
  lemma DurableGuarantees(b: Build, cp: Option<Checkpoint>, out: Option<Output>)
    requires b.Valid() && Durable(b, cp, out)
    ensures exists k: nat :: k <= |b.names| && CompletesFirst(cp, k)
    ensures |Versions(b.base)| <= |Versions(out)| <= |Versions(b.base)| + 1
    ensures cp.Some? && cp.value.Saved? ==>
              forall i | 0 <= i < |Versions(out)| && Versions(out)[i].runId != cp.value.runId ::
                i < |Versions(b.base)| && Versions(out)[i] == Versions(b.base)[i]
    ensures cp.Some? && cp.value.Saved? ==>
              forall i, j | 0 <= i < j < |Versions(out)| ::
                Versions(out)[i].runId != cp.value.runId || Versions(out)[j].runId != cp.value.runId
    ensures out.Some? && out.value.trust.Verified? ==>
              b.clean(out.value.versions, out.value.data) &&
              out.value.trust == Verified(out.value.versions, out.value.data)
  {
    CompletedPrefix(b, cp, out);
    hide UpTo, Prefix, CompletesFirst;
  }

  ghost predicate CompletesFirst(cp: Option<Checkpoint>, k: nat) {
    forall i: nat :: CompleteIn(cp, i) <==> i < k
  }

  lemma CompletedPrefix(b: Build, cp: Option<Checkpoint>, out: Option<Output>)
    requires b.Valid() && Durable(b, cp, out)
    ensures exists k: nat :: k <= |b.names| && CompletesFirst(cp, k)
  {
    if cp.Some? && cp.value.Saved? {
      var phases := cp.value.phases;
      var k: nat :| UpTo(b.names, phases, k);
      var done: nat := if CompleteIn(cp, k) then k + 1 else k;
      assert CompletesFirst(cp, done);
    } else {
      assert CompletesFirst(cp, 0);
    }
  }

  // ---- Durable steps ----

  function Intent(c: Checkpoint, s: Settings, state: State, runId: string, versionId: Option<nat>,
                  key: Key): Checkpoint
  {
    var (kept, must, phases) := if c.Saved? then (c.versionId, c.mustSanitize, c.phases) else (None, false, map[]);
    var fingerprint := if s.fingerprint.Some? then s.fingerprint else if c.Saved? then c.fingerprint else None;
    Saved(runId, if versionId.Some? then versionId else kept, fingerprint, Private(state, key, s),
          must || state == Upgrading, phases)
  }

  function Inserted(out: Output, v: Version): Output {
    out.(versions := out.versions + [v], trust := Unmarked)
  }

  function Upgraded(out: Output, i: nat, identity: Identity): Output
    requires i < |out.versions|
  {
    out.(versions := out.versions[i := out.versions[i].(identity := identity)], trust := Unmarked)
  }

  function Completed(out: Output, i: nat): Output
    requires i < |out.versions|
  {
    out.(versions := out.versions[i := out.versions[i].(completed := Some(EntityCount(out.data, i)))])
  }

  function PhaseSaved(c: Checkpoint, i: nat, row: PhaseRow): Checkpoint
    requires c.Saved?
  {
    c.(phases := c.phases[i := row])
  }

  lemma RowOfUnique(versions: seq<Version>, runId: string, i: nat)
    requires i < |versions| && versions[i].runId == runId
    requires forall j | 0 <= j < |versions| && j != i :: versions[j].runId != runId
    ensures RowOf(versions, runId) == Some(i)
  {
  }

  lemma IntentPrepared(b: Build, c: Checkpoint, runId: string, key: Key)
    requires b.Valid() && c.Blank? && RowOf(Versions(b.base), runId).None?
    ensures InBuild(b, Intent(c, b.settings, Prepared, runId, None, key), b.base)
  {
    assert UpTo(b.names, map[], 0);
  }

  lemma InsertedKeyed(b: Build, c: Checkpoint, out: Output)
    requires b.Valid() && c.Saved? && InBuild(b, c, Some(out)) && Sound(b.clean, Some(out))
    requires c.secret.Private? && c.secret.state == Prepared && out.schema >= CORE_STEPS &&
             Unpublished(b, c.runId, Some(out))
    ensures var next := Inserted(out, NewVersion(b.settings, c.runId, c.secret.key));
            InBuild(b, c, Some(next)) && Keyed(b, c, Some(next), |out.versions|) && Sound(b.clean, Some(next))
    ensures |out.versions| == |Versions(b.base)|
  {
    hide UpTo;
  }

  lemma BoundIntent(b: Build, c: Checkpoint, out: Option<Output>, i: nat)
    requires c.Saved? && InBuild(b, c, out) && c.secret.Private? && Keyed(b, c, out, i)
    requires c.versionId.Some? ==> c.versionId.value == i
    ensures InBuild(b, Intent(c, b.settings, Bound, c.runId, Some(i), c.secret.key), out)
  {
    hide UpTo;
  }

  lemma UpgradingIntent(b: Build, c: Checkpoint, out: Option<Output>, key: Key)
    requires c.Saved? && InBuild(b, c, out)
    requires c.secret.NoKey? || (c.secret.state == Upgrading && c.secret.key == key)
    ensures c.versionId.Some? && out.Some? &&
            InBuild(b, Intent(c, b.settings, Upgrading, c.runId, c.versionId, key), out)
  {
    hide UpTo;
  }

  lemma UpgradedKeyed(b: Build, c: Checkpoint, out: Output)
    requires c.Saved? && InBuild(b, c, Some(out)) && Sound(b.clean, Some(out)) && c.secret.Private? &&
             c.secret.state == Upgrading
    ensures c.versionId.Some? && c.versionId.value < |out.versions|
    ensures var next := Upgraded(out, c.versionId.value, Hmac(b.settings.source, c.runId, c.secret.key));
            InBuild(b, c, Some(next)) && Keyed(b, c, Some(next), c.versionId.value) && Sound(b.clean, Some(next))
  {
    hide UpTo;
  }

  /** In the bound state data may change freely: only the version table, and a
      marker that would no longer be true, are constrained. */
  lemma BoundData(b: Build, c: Checkpoint, out: Output, data: Data, trust: Trust)
    requires c.Saved? && InBuild(b, c, Some(out)) && Sound(b.clean, Some(out)) && c.secret.Private? &&
             c.secret.state == Bound
    requires Honest(b.clean, out.(data := data, trust := trust))
    ensures InBuild(b, c, Some(out.(data := data, trust := trust))) &&
            Sound(b.clean, Some(out.(data := data, trust := trust)))
  {
    hide UpTo;
  }

  lemma BoundCompleted(b: Build, c: Checkpoint, out: Output)
    requires c.Saved? && InBuild(b, c, Some(out)) && Sound(b.clean, Some(out)) && c.secret.Private? &&
             c.secret.state == Bound
    requires !out.trust.Verified?
    ensures c.versionId.Some? && c.versionId.value < |out.versions|
    ensures InBuild(b, c, Some(Completed(out, c.versionId.value))) &&
            Sound(b.clean, Some(Completed(out, c.versionId.value)))
  {
    hide UpTo;
  }

  lemma BoundPhase(b: Build, c: Checkpoint, out: Option<Output>, k: nat, i: nat, row: PhaseRow)
    requires c.Saved? && InBuild(b, c, out) && c.secret.Private? && c.secret.state == Bound
    requires UpTo(b.names, c.phases, k) && i < |b.names| && row.name == b.names[i]
    requires i == k || (i == |b.names| - 1 && k == |b.names|)
    ensures var next := PhaseSaved(c, i, row);
            InBuild(b, next, out) && UpTo(b.names, next.phases, i) &&
            (row.status == Complete ==> UpTo(b.names, next.phases, i + 1))
  {
    assert UpTo(b.names, PhaseSaved(c, i, row).phases, i);
  }

  /** The bound state of a running build: the first k phases are complete and no
      verified marker stands. */
  ghost predicate Writing(b: Build, runId: string, k: nat, cp: Option<Checkpoint>, out: Option<Output>) {
    cp.Some? && cp.value.Saved? && cp.value.runId == runId && out.Some? && !out.value.trust.Verified? &&
    Sound(b.clean, out) && InBuild(b, cp.value, out) && cp.value.secret.Private? && cp.value.secret.state == Bound &&
    UpTo(b.names, cp.value.phases, k)
  }

  lemma WritingDurable(b: Build, runId: string, k: nat, cp: Option<Checkpoint>, out: Option<Output>)
    requires Writing(b, runId, k, cp, out)
    ensures Durable(b, cp, out) && !Stuck(cp, out) && cp.Some? && cp.value.Saved? && cp.value.runId == runId
  {
    hide UpTo;
  }

  lemma WritingPhase(b: Build, runId: string, k: nat, cp: Option<Checkpoint>, out: Option<Output>, i: nat,
                     row: PhaseRow)
    requires Writing(b, runId, k, cp, out) && i < |b.names| && row.name == b.names[i]
    requires i == k || (i == |b.names| - 1 && k == |b.names|)
    ensures var next := Some(PhaseSaved(cp.value, i, row));
            Writing(b, runId, i, next, out) && (row.status == Complete ==> Writing(b, runId, i + 1, next, out))
  {
    BoundPhase(b, cp.value, out, k, i, row);
    hide UpTo, InBuild;
  }

  lemma WritingData(b: Build, runId: string, k: nat, cp: Option<Checkpoint>, out: Option<Output>, data: Data,
                    trust: Trust)
    requires Writing(b, runId, k, cp, out) && !trust.Verified?
    ensures Writing(b, runId, k, cp, Some(out.value.(data := data, trust := trust)))
  {
    BoundData(b, cp.value, out.value, data, trust);
    hide UpTo, InBuild;
  }

  lemma WritingCompleted(b: Build, runId: string, k: nat, cp: Option<Checkpoint>, out: Option<Output>)
    requires Writing(b, runId, k, cp, out)
    ensures cp.value.versionId.Some? && cp.value.versionId.value < |out.value.versions|
    ensures Writing(b, runId, k, cp, Some(Completed(out.value, cp.value.versionId.value)))
  {
    BoundCompleted(b, cp.value, out.value);
    hide UpTo, InBuild;
  }

  /** The gate's publication: the marker names the content as it is. */
  function PublishedOutput(out: Output): Output { out.(trust := Verified(out.versions, out.data)) }

  lemma PublishedDurable(b: Build, runId: string, k: nat, cp: Option<Checkpoint>, out: Option<Output>)
    requires Writing(b, runId, k, cp, out) && b.clean(out.value.versions, out.value.data)
    ensures Durable(b, cp, Some(PublishedOutput(out.value))) && !Stuck(cp, Some(PublishedOutput(out.value)))
  {
    BoundData(b, cp.value, out.value, out.value.data, Verified(out.value.versions, out.value.data));
    hide UpTo;
  }

  ghost predicate RowCompleted(cp: Option<Checkpoint>, out: Option<Output>) {
    cp.Some? && cp.value.Saved? && cp.value.versionId.Some? && out.Some? &&
    cp.value.versionId.value < |out.value.versions| &&
    out.value.versions[cp.value.versionId.value].completed ==
      Some(|EntitiesOf(out.value.data, cp.value.versionId.value)|)
  }

  /** What is left when the checkpoint of a completed version is removed. */
  lemma ClearedDone(b: Build, runId: string, k: nat, cp: Option<Checkpoint>, out: Option<Output>, final: Output)
    requires Writing(b, runId, k, cp, out) && RowCompleted(cp, out)
    requires final == if Sanitizes(b.names) then PublishedOutput(out.value) else out.value
    requires Sound(b.clean, Some(final))
    ensures Done(b, None, Some(final), runId)
  {
    hide UpTo;
    var i := cp.value.versionId.value;
    assert OnlyRow(Versions(b.base), final.versions, runId, i);
    assert final.versions[i].identity == Hmac(b.settings.source, runId, cp.value.secret.key);
  }

  // ---- Restoring ----

  ghost predicate PreparedRestorable(s: Settings, c: Checkpoint, out: Option<Output>)
    requires c.Saved? && c.secret.Private?
  {
    c.phases == map[] &&
    match RowOf(Versions(out), c.runId)
    case None => EmptyOutput(out)
    case Some(i) => out.value.versions[i].parser == s.parser &&
                    out.value.versions[i].identity == Hmac(s.source, c.runId, c.secret.key)
  }

  /** Which checkpoints a pipeline with these settings resumes from. */
  ghost predicate Restorable(s: Settings, c: Checkpoint, out: Option<Output>) {
    c.Saved? && (s.fingerprint.Some? ==> c.fingerprint == s.fingerprint) &&
    (c.secret.Private? ==> c.secret.intent == s) &&
    if c.secret.Private? && c.secret.state == Prepared then PreparedRestorable(s, c, out)
    else
      c.versionId.Some? && c.versionId.value < |Versions(out)| &&
      var row := Versions(out)[c.versionId.value];
      row.runId == c.runId && row.parser == s.parser &&
      (if c.secret.Private? then row.identity == Hmac(s.source, c.runId, c.secret.key) ||
       (c.secret.state == Upgrading && LegacyRow(s, c.runId, row))
       else LegacyRow(s, c.runId, row))
  }

  /** A resume is refused exactly in the stuck states. */
  lemma RestorableUnlessStuck(b: Build, c: Checkpoint, out: Option<Output>)
    requires b.Valid() && Durable(b, Some(c), out)
    ensures Restorable(b.settings, c, out) <==> !Stuck(Some(c), out)
  {
    hide UpTo;
    if c.Saved? && c.secret.Private? && c.secret.state == Prepared {
      PreparedRow(b, c, out);
    }
  }

  /** A prepared intent finds its version exactly when the version was inserted. */
  lemma PreparedRow(b: Build, c: Checkpoint, out: Option<Output>)
    requires c.Saved? && InBuild(b, c, out) && c.secret.Private? && c.secret.state == Prepared
    ensures var i := RowOf(Versions(out), c.runId);
            if i.Some? then i.value == |Versions(b.base)| && Keyed(b, c, out, i.value) else Unpublished(b, c.runId, out)
  {
    hide UpTo;
    if Keyed(b, c, out, |Versions(b.base)|) {
      RowOfUnique(Versions(out), c.runId, |Versions(b.base)|);
    } else if EmptyOutput(b.base) {
      assert Versions(out) == [];
    }
  }

  // ---- The two databases and the world around a run ----

  /** Both files, and how many more durable steps this process lives for. A step
      past the budget does not happen: the process is dead. */
  class Disk {
    var checkpoint: Option<Checkpoint>
    var output: Option<Output>
    var budget: Option<nat>

    constructor (checkpoint: Option<Checkpoint>, output: Option<Output>, budget: Option<nat>)
      ensures this.checkpoint == checkpoint && this.output == output && this.budget == budget
    {
      this.checkpoint, this.output, this.budget := checkpoint, output, budget;
    }

    method Spend() returns (alive: bool)
      modifies `budget
      ensures alive <==> old(budget) != Some(0)
      ensures budget == if old(budget).Some? && old(budget).value > 0 then Some(old(budget).value - 1) else old(budget)
    {
      if budget.None? { return true; }
      if budget.value == 0 { return false; }
      budget := Some(budget.value - 1);
      return true;
    }

    method SaveCheckpoint(next: Option<Checkpoint>) returns (alive: bool)
      modifies this
      ensures output == old(output) && checkpoint == if alive then next else old(checkpoint)
      ensures alive <==> old(budget) != Some(0)
      ensures budget == if old(budget).Some? && old(budget).value > 0 then Some(old(budget).value - 1) else old(budget)
    {
      alive := Spend();
      if alive { checkpoint := next; }
    }

    method SaveOutput(next: Output) returns (alive: bool)
      modifies this
      ensures checkpoint == old(checkpoint) && output == if alive then Some(next) else old(output)
      ensures alive <==> old(budget) != Some(0)
      ensures budget == if old(budget).Some? && old(budget).value > 0 then Some(old(budget).value - 1) else old(budget)
    {
      alive := Spend();
      if alive { output := Some(next); }
    }
  }

  /** What a phase's handler does next. */
  datatype Effect = Write(data: Data) | Return | Raise

  /** One process: what its phase handlers do (phase, step, data seen so far),
      whether its final scan and publication get through, and the run id and key
      it would draw. */
  datatype World = World(handler: (nat, nat, Data) -> Effect, limit: nat, scans: bool, publishes: bool, runId: string,
                         key: Key)

  function DataOf(out: Option<Output>): Data { if out.Some? then out.value.data else [] }

  ghost function TrustOf(out: Option<Output>): Option<Trust> { if out.Some? then Some(out.value.trust) else None }

  /** What a handler leaves from one of its steps on, and whether it raised. */
  function Handled(w: World, i: nat, step: nat, data: Data): (Data, bool)
    decreases if step <= w.limit then w.limit - step else 0
  {
    if step >= w.limit then (data, false)
    else match w.handler(i, step, data)
         case Write(next) => Handled(w, i, step + 1, next)
         case Return => (data, false)
         case Raise => (data, true)
  }

  /** What the handlers of the phases between two indices leave, each run once, in order. */
  function AllHandled(w: World, from: nat, to: nat, data: Data): Data
    decreases to
  {
    if from >= to then data else Handled(w, to - 1, 0, AllHandled(w, from, to - 1, data)).0
  }

  datatype Outcome =
    | Finished(ran: seq<nat>) | Crashed | Refused | NoVersionsTable | PhaseFailed(phase: nat) | GateFailed

  class Pipeline {
    const disk: Disk
    const settings: Settings
    const names: seq<string>
    const clean: Clean
    const world: World
    var runId: string
    var versionId: Option<nat>
    var key: Option<Key>
    var recoverEmptyOutput: bool
    var upgradePending: bool
    var mustSanitize: bool

    constructor (disk: Disk, settings: Settings, names: seq<string>, clean: Clean, world: World)
      ensures this.disk == disk && this.settings == settings && this.names == names && this.clean == clean &&
              this.world == world
      ensures runId == world.runId && versionId == None && key == None && !recoverEmptyOutput && !upgradePending &&
              !mustSanitize
    {
      this.disk, this.settings, this.names, this.clean, this.world := disk, settings, names, clean, world;
      runId, versionId, key, recoverEmptyOutput, upgradePending, mustSanitize :=
        world.runId, None, None, false, false, false;
    }

    ghost predicate For(b: Build) { b.Valid() && settings == b.settings && names == b.names && clean == b.clean }

    /** The fields agree with the checkpoint they were read from or written to. */
    ghost predicate Matches(c: Checkpoint)
      reads this
    {
      c.Saved? && runId == c.runId && mustSanitize == c.mustSanitize &&
      (c.secret.Private? ==> key == Some(c.secret.key))
    }

    /** `_persist_identity_intent`: the key is durable before anything depends on it. */
    method PersistIdentityIntent(state: State) returns (alive: bool)
      modifies this, disk
      ensures disk.output == old(disk.output) && runId == old(runId) && versionId == old(versionId)
      ensures recoverEmptyOutput == old(recoverEmptyOutput) && upgradePending == old(upgradePending)
      ensures key == Some(if old(key).Some? then old(key).value else world.key) || !alive
      ensures alive ==> mustSanitize == (old(mustSanitize) || state == Upgrading)
      ensures old(disk.budget).None? ==> alive && disk.budget.None?
      ensures old(disk.checkpoint).Some? && old(disk.checkpoint.value).Saved? ==>
                disk.checkpoint ==
                  (if alive then Some(Intent(old(disk.checkpoint.value), settings, state, runId, versionId, key.value))
                   else old(disk.checkpoint))
      ensures old(disk.checkpoint).None? && alive ==>
                disk.checkpoint == Some(Intent(Blank(2), settings, state, runId, versionId, key.value))
      ensures old(disk.checkpoint).None? ==>
                (alive <==> old(disk.budget).None? || old(disk.budget).value >= 4) &&
                (alive ==> disk.budget == if old(disk.budget).None? then None else Some(old(disk.budget).value - 4)) &&
                (!alive ==>
                   disk.checkpoint ==
                     if old(disk.budget) == Some(0) then None else Some(Blank(old(disk.budget).value - 1)))
    {
      if disk.checkpoint.None? {
        alive := disk.SaveCheckpoint(Some(Blank(0)));
        if !alive { return false; }
      }
      if key.None? { key := Some(world.key); }
      while disk.checkpoint.value.Blank? && disk.checkpoint.value.tables < 2
        invariant disk.output == old(disk.output) && disk.checkpoint.Some?
        invariant old(disk.checkpoint).Some? && old(disk.checkpoint.value).Saved? ==>
                  disk.checkpoint == old(disk.checkpoint) && disk.budget == old(disk.budget)
        invariant old(disk.checkpoint).None? ==> disk.checkpoint.value.Blank? && disk.checkpoint.value.tables <= 2
        invariant old(disk.checkpoint).None? ==> (old(disk.budget).None? <==> disk.budget.None?)
        invariant old(disk.checkpoint).None? && disk.budget.Some? ==>
                  disk.budget.value + disk.checkpoint.value.tables + 1 == old(disk.budget).value
        invariant old(disk.budget).None? ==> disk.budget.None?
        modifies disk
        decreases if disk.checkpoint.value.Blank? then 2 - disk.checkpoint.value.tables else 0
      {
        alive := disk.SaveCheckpoint(Some(Blank(disk.checkpoint.value.tables + 1)));
        if !alive { return false; }
      }
      alive := disk.SaveCheckpoint(Some(Intent(disk.checkpoint.value, settings, state, runId, versionId, key.value)));
      if alive && state == Upgrading { mustSanitize := true; }
    }

    /** `_restore_prepared_identity`. */
    method RestorePreparedIdentity(c: Checkpoint) returns (ok: bool)
      requires c.Saved? && c.secret.Private? && c.secret.intent == settings
      modifies this
      ensures ok <==> PreparedRestorable(settings, c, disk.output)
      ensures ok ==> runId == c.runId && key == Some(c.secret.key) && versionId == RowOf(Versions(disk.output), c.runId)
      ensures ok ==> (recoverEmptyOutput <==> versionId.None?)
      ensures upgradePending == old(upgradePending) && mustSanitize == old(mustSanitize)
    {
      if c.phases != map[] { return false; }
      runId, versionId, key, recoverEmptyOutput := c.runId, None, Some(c.secret.key), false;
      var row := if disk.output.Some? then RowOf(disk.output.value.versions, runId) else None;
      if row.Some? {
        var v := disk.output.value.versions[row.value];
        if v.parser != settings.parser || v.identity != Hmac(settings.source, runId, key.value) { return false; }
        versionId := row;
      } else if EmptyOutput(disk.output) {
        recoverEmptyOutput := true;
      } else {
        return false;
      }
      return true;
    }

    /** `_validate_fingerprint` and `_restore_version_identity`. */
    method RestoreVersionIdentity() returns (ok: bool)
      requires disk.checkpoint.Some?
      modifies this
      ensures ok <==> Restorable(settings, disk.checkpoint.value, disk.output)
      ensures ok ==> Matches(disk.checkpoint.value)
      ensures ok && disk.checkpoint.value.secret.Private? && disk.checkpoint.value.secret.state == Prepared ==>
                versionId == RowOf(Versions(disk.output), runId) && (recoverEmptyOutput <==> versionId.None?) &&
                upgradePending == old(upgradePending)
      ensures ok && !(disk.checkpoint.value.secret.Private? && disk.checkpoint.value.secret.state == Prepared) ==>
                versionId == disk.checkpoint.value.versionId && recoverEmptyOutput == old(recoverEmptyOutput)
      ensures ok && disk.checkpoint.value.secret.NoKey? ==> key.None? && upgradePending
      ensures ok && disk.checkpoint.value.secret.Private? && disk.checkpoint.value.secret.state != Prepared ==>
                (upgradePending <==> disk.checkpoint.value.secret.state == Upgrading)
    {
      var c := disk.checkpoint.value;
      if c.Blank? { return false; }
      if settings.fingerprint.Some? && c.fingerprint != settings.fingerprint { return false; }
      mustSanitize := c.mustSanitize;
      if c.secret.Private? && c.secret.intent != settings { return false; }
      if c.secret.Private? && c.secret.state == Prepared {
        ok := RestorePreparedIdentity(c);
        return;
      }
      if c.versionId.None? || disk.output.None? || c.versionId.value >= |disk.output.value.versions| { return false; }
      var row := disk.output.value.versions[c.versionId.value];
      if row.runId != c.runId || row.parser != settings.parser { return false; }
      if row.identity.Hmac? {
        if c.secret.NoKey? || row.identity != Hmac(settings.source, c.runId, c.secret.key) { return false; }
      } else if c.secret.Private? && c.secret.state == Bound {
        return false;
      } else if row.identity.Digest? {
        if row.identity != Digest(settings.source, c.runId) { return false; }
      } else if row.source != settings.source {
        return false;
      }
      runId, versionId := c.runId, c.versionId;
      key := if c.secret.Private? then Some(c.secret.key) else None;
      upgradePending := c.secret.NoKey? || c.secret.state == Upgrading;
      return true;
    }

    /** `_upgrade_legacy_identity`: key first, then the HMAC together with the
        revocation of earlier evidence. */
    method UpgradeLegacyIdentity(ghost b: Build) returns (alive: bool)
      requires For(b) && disk.checkpoint.Some? && Matches(disk.checkpoint.value) &&
               Durable(b, disk.checkpoint, disk.output)
      requires disk.checkpoint.value.secret.NoKey? || disk.checkpoint.value.secret.state == Upgrading
      requires disk.checkpoint.value.secret.NoKey? ==> key.None?
      requires versionId == disk.checkpoint.value.versionId
      modifies this, disk
      ensures runId == old(runId) && versionId == old(versionId) && Durable(b, disk.checkpoint, disk.output)
      ensures disk.checkpoint.Some? && disk.checkpoint.value.Saved? && disk.checkpoint.value.runId == runId &&
              !Stuck(disk.checkpoint, disk.output)
      ensures alive ==>
                Matches(disk.checkpoint.value) && disk.checkpoint.value.secret.Private? &&
                disk.checkpoint.value.secret.state == Upgrading
      ensures alive ==> mustSanitize && disk.checkpoint.value.phases == old(disk.checkpoint).value.phases
      ensures DataOf(disk.output) == DataOf(old(disk.output))
      ensures alive ==>
                versionId.Some? && disk.checkpoint.value.versionId == versionId &&
                Keyed(b, disk.checkpoint.value, disk.output, versionId.value)
      ensures old(disk.budget).None? ==> alive && disk.budget.None?
    {
      hide InBuild, Sound, Keyed, Older, Published;
      UpgradingIntent(b, disk.checkpoint.value, disk.output, if key.Some? then key.value else world.key);
      alive := PersistIdentityIntent(Upgrading);
      if !alive { return; }
      UpgradedKeyed(b, disk.checkpoint.value, disk.output.value);
      alive := disk.SaveOutput(Upgraded(disk.output.value, versionId.value, Hmac(settings.source, runId, key.value)));
      if alive { upgradePending := false; }
    }

    /** `initialize_database` on a missing or partly initialized output. */
    method InitializeDatabase(ghost b: Build) returns (alive: bool)
      requires EmptyOutput(disk.output) && Sound(b.clean, disk.output)
      modifies disk
      ensures disk.checkpoint == old(disk.checkpoint) && EmptyOutput(disk.output) && Sound(b.clean, disk.output)
      ensures alive ==> disk.output.Some? && disk.output.value.schema == SCHEMA_STEPS
      ensures old(disk.budget).None? ==> alive && disk.budget.None?
    {
      if disk.output.None? {
        alive := disk.SaveOutput(Output(1, [], [], Unmarked));
        if !alive { return false; }
      }
      while disk.output.value.schema < SCHEMA_STEPS
        invariant disk.checkpoint == old(disk.checkpoint) && disk.output.Some? && EmptyOutput(disk.output) &&
                  Sound(b.clean, disk.output)
        invariant old(disk.budget).None? ==> disk.budget.None?
        decreases SCHEMA_STEPS - disk.output.value.schema
      {
        alive := disk.SaveOutput(disk.output.value.(schema := disk.output.value.schema + 1));
        if !alive { return false; }
      }
      return true;
    }

    /** `_create_version_record`. An empty output that was there before the build
        began is not initialized here, so its core tables may be missing. */
    method CreateVersionRecord(ghost b: Build) returns (alive: bool, ok: bool)
      requires For(b) && disk.checkpoint.Some? && Matches(disk.checkpoint.value) &&
               Durable(b, disk.checkpoint, disk.output)
      requires disk.checkpoint.value.secret.Private? && disk.checkpoint.value.secret.state == Prepared
      requires versionId.None? && Unpublished(b, runId, disk.output) && (recoverEmptyOutput ==> EmptyOutput(b.base))
      modifies this, disk
      ensures disk.checkpoint == old(disk.checkpoint) && Durable(b, disk.checkpoint, disk.output) &&
              Matches(disk.checkpoint.value)
      ensures key == old(key) && DataOf(disk.output) == DataOf(old(disk.output))
      ensures alive && ok ==>
                versionId == Some(|Versions(b.base)|) && Keyed(b, disk.checkpoint.value, disk.output, versionId.value)
      ensures alive && ok ==> TrustOf(disk.output) == Some(Unmarked)
      ensures alive && !ok ==>
                EmptyOutput(b.base) && !old(recoverEmptyOutput) && disk.output.Some? &&
                disk.output.value.schema < CORE_STEPS
      ensures alive && !ok ==> !Stuck(disk.checkpoint, disk.output) && disk.output == old(disk.output)
      ensures !alive ==> (Stuck(disk.checkpoint, disk.output) <==> !EmptyOutput(b.base))
      ensures !EmptyOutput(b.base) ==>
                (!alive <==> old(disk.budget) == Some(0)) && (!alive ==> disk.output == old(disk.output))
      ensures old(disk.budget).None? ==> alive && disk.budget.None?
    {
      hide InBuild, Keyed, Sound, Stuck, Durable, Unpublished, Inserted, EmptyOutput, RowOf;
      ghost var c := disk.checkpoint.value;
      PreparedState(b, c, disk.output, disk.output);
      ok := true;
      if disk.output.None? || recoverEmptyOutput {
        alive := InitializeDatabase(b);
        PreparedState(b, c, old(disk.output), disk.output);
        if !alive { return; }
      }
      var out := disk.output.value;
      if out.schema < CORE_STEPS { return true, false; }
      InsertedState(b, c, out);
      alive := disk.SaveOutput(Inserted(out, NewVersion(settings, runId, key.value)));
      if alive { versionId := RowOf(disk.output.value.versions, runId); }
    }

    /** `get_last_checkpoint`: the last completed phase, or -1; discarded when a
        row no longer matches the phase list. */
    method LastCheckpoint() returns (last: int)
      requires disk.checkpoint.Some? && disk.checkpoint.value.Saved?
      ensures forall k: nat | UpTo(names, disk.checkpoint.value.phases, k) :: -1 <= last < |names| && k - 1 <= last <= k
      ensures forall k: nat | UpTo(names, disk.checkpoint.value.phases, k) ::
                UpTo(names, disk.checkpoint.value.phases, last + 1)
    {
      var rows := disk.checkpoint.value.phases;
      last := -1;
      var rest := rows.Keys;
      while rest != {}
        invariant rest <= rows.Keys
        invariant last == -1 || (0 <= last && last in rows && rows[last].status == Complete)
        invariant forall j | j in rows && rows[j].status == Complete && j !in rest :: j <= last
        decreases rest
      {
        ghost var w := Pick(rest);
        var j :| j in rest;
        if rows[j].status == Complete {
          if j >= |names| || names[j] != rows[j].name { return -1; }
          if j > last { last := j; }
        }
        rest := rest - {j};
      }
      forall k: nat | UpTo(names, rows, k) ensures k - 1 <= last {
        if k > 0 {
          var j: nat := k - 1;
          assert j in rows && rows[j].status == Complete && j !in rest;
        }
      }
    }

    /** Where the fields and both databases stand while a bound build runs. */
    ghost predicate InPhases(b: Build, k: nat)
      reads this, disk
    {
      For(b) && Writing(b, runId, k, disk.checkpoint, disk.output) && Matches(disk.checkpoint.value) &&
      disk.checkpoint.value.versionId == versionId
    }

    /** Revoke earlier evidence, then bind the checkpoint to its version. */
    method Bind(ghost b: Build, ghost k: nat, created: bool) returns (alive: bool)
      requires For(b) && disk.checkpoint.Some? && Matches(disk.checkpoint.value) &&
               InBuild(b, disk.checkpoint.value, disk.output)
      requires disk.checkpoint.value.secret.Private? && Sound(b.clean, disk.output) && versionId.Some?
      requires disk.checkpoint.value.versionId.Some? ==> disk.checkpoint.value.versionId == versionId
      requires Keyed(b, disk.checkpoint.value, disk.output, versionId.value) &&
               UpTo(b.names, disk.checkpoint.value.phases, k)
      requires created ==> TrustOf(disk.output) == Some(Unmarked)
      modifies this, disk
      ensures runId == old(runId) && Durable(b, disk.checkpoint, disk.output) && !Stuck(disk.checkpoint, disk.output)
      ensures disk.checkpoint.Some? && disk.checkpoint.value.Saved? && disk.checkpoint.value.runId == runId
      ensures alive ==>
                InPhases(b, k) && disk.checkpoint.value.phases == old(disk.checkpoint.value.phases) &&
                mustSanitize == old(mustSanitize) && TrustOf(disk.output) == Some(Unmarked)
      ensures DataOf(disk.output) == DataOf(old(disk.output))
      ensures old(disk.budget).None? ==> alive && disk.budget.None?
    {
      hide UpTo, Restorable, OnlyRow;
      KeyedNotStuck(b, disk.checkpoint.value, disk.output, versionId.value);
      if !created {
        RevokedKeyed(b, disk.checkpoint.value, disk.output.value, versionId.value);
        alive := disk.SaveOutput(disk.output.value.(trust := Unmarked));
        if !alive { return; }
      }
      KeyedNotStuck(b, disk.checkpoint.value, disk.output, versionId.value);
      BoundIntent(b, disk.checkpoint.value, disk.output, versionId.value);
      alive := PersistIdentityIntent(Bound);
    }

    /** A phase's handler, writing the output step by step. It is only ever run
        when every earlier phase is complete. */
    method Handle(ghost b: Build, i: nat) returns (alive: bool, raised: bool)
      requires InPhases(b, i)
      modifies disk
      ensures disk.checkpoint == old(disk.checkpoint) && InPhases(b, i)
      ensures raised ==> exists step: nat, data :: world.handler(i, step, data) == Raise
      ensures alive ==> (DataOf(disk.output), raised) == Handled(world, i, 0, DataOf(old(disk.output)))
      ensures TrustOf(disk.output) == TrustOf(old(disk.output))
      ensures old(disk.budget).None? ==> alive && disk.budget.None?
    {
      hide Writing;
      for step := 0 to world.limit
        invariant disk.checkpoint == old(disk.checkpoint) && InPhases(b, i)
        invariant Handled(world, i, step, DataOf(disk.output)) == Handled(world, i, 0, DataOf(old(disk.output)))
        invariant TrustOf(disk.output) == TrustOf(old(disk.output))
        invariant old(disk.budget).None? ==> disk.budget.None?
      {
        WritingDurable(b, runId, i, disk.checkpoint, disk.output);
        WritingOutput(b, runId, i, disk.checkpoint, disk.output);
        match world.handler(i, step, disk.output.value.data)
        case Write(data) =>
          WritingData(b, runId, i, disk.checkpoint, disk.output, data, disk.output.value.trust);
          alive := disk.SaveOutput(disk.output.value.(data := data));
          if !alive { return false, false; }
        case Return => return true, false;
        case Raise => return true, true;
      }
      return true, false;
    }

    method SaveCheckpoint(ghost b: Build, ghost k: nat, i: nat, status: Status) returns (alive: bool)
      requires InPhases(b, k) && i < |names| && (i == k || (i == |names| - 1 && k == |names|))
      modifies disk
      ensures disk.output == old(disk.output) && !Stuck(disk.checkpoint, disk.output)
      ensures if alive then InPhases(b, i) && (status == Complete ==> InPhases(b, i + 1)) else InPhases(b, k)
      ensures alive ==> disk.checkpoint == Some(PhaseSaved(old(disk.checkpoint).value, i, PhaseRow(names[i], status)))
      ensures old(disk.budget).None? ==> alive && disk.budget.None?
    {
      hide Writing;
      WritingDurable(b, runId, k, disk.checkpoint, disk.output);
      WritingPhase(b, runId, k, disk.checkpoint, disk.output, i, PhaseRow(names[i], status));
      alive := disk.SaveCheckpoint(Some(PhaseSaved(disk.checkpoint.value, i, PhaseRow(names[i], status))));
      if alive { WritingDurable(b, runId, i, disk.checkpoint, disk.output); }
    }

    method MarkSanitizationFailed(ghost b: Build, ghost k: nat) returns (alive: bool)
      requires InPhases(b, k)
      modifies disk
      ensures disk.checkpoint == old(disk.checkpoint) && InPhases(b, k)
      ensures old(disk.output).Some? && (alive ==> disk.output == Some(old(disk.output).value.(trust := Failed)))
      ensures old(disk.budget).None? ==> alive && disk.budget.None?
    {
      hide Writing;
      WritingOutput(b, runId, k, disk.checkpoint, disk.output);
      WritingData(b, runId, k, disk.checkpoint, disk.output, disk.output.value.data, Failed);
      alive := disk.SaveOutput(disk.output.value.(trust := Failed));
    }

    /** One phase of the loop: running, handled, complete or failed. */
    method RunPhase(ghost b: Build, ghost k: nat, i: nat) returns (alive: bool, ok: bool)
      requires InPhases(b, k) && i < |names| && (i == k || (i == |names| - 1 && k == |names|))
      modifies disk
      ensures alive && ok ==> InPhases(b, i + 1)
      ensures alive && ok ==> Handled(world, i, 0, DataOf(old(disk.output))) == (DataOf(disk.output), false)
      ensures !alive || !ok ==> exists j: nat :: InPhases(b, j)
      ensures alive && !ok ==> Failing(i)
      ensures alive ==> TrustOf(disk.output) ==
                        if !ok && names[i] == "sanitize" then Some(Failed) else TrustOf(old(disk.output))
      ensures old(disk.budget).None? ==> alive && disk.budget.None?
    {
      hide InPhases, Writing;
      InPhasesParts(b, k);
      alive := SaveCheckpoint(b, k, i, Running);
      if !alive { return false, false; }
      var raised;
      alive, raised := Handle(b, i);
      if !alive { return false, false; }
      if !raised {
        alive := SaveCheckpoint(b, i, i, Complete);
        return alive, alive;
      }
      alive := SaveCheckpoint(b, i, i, Broken);
      if alive && names[i] == "sanitize" {
        alive := MarkSanitizationFailed(b, i);
      }
      return alive, false;
    }

    /** `_finalize_version_record`. */
    method FinalizeVersionRecord(ghost b: Build, ghost k: nat) returns (alive: bool)
      requires InPhases(b, k)
      modifies disk
      ensures disk.checkpoint == old(disk.checkpoint) && InPhases(b, k)
      ensures alive ==> RowCompleted(disk.checkpoint, disk.output)
      ensures DataOf(disk.output) == DataOf(old(disk.output))
      ensures old(disk.budget).None? ==> alive && disk.budget.None?
    {
      hide Writing;
      WritingOutput(b, runId, k, disk.checkpoint, disk.output);
      WritingDurable(b, runId, k, disk.checkpoint, disk.output);
      WritingCompleted(b, runId, k, disk.checkpoint, disk.output);
      CountedEntities(disk.output.value.data, versionId.value);
      alive := disk.SaveOutput(Completed(disk.output.value, versionId.value));
    }

    /** `finalize_sanitization`: scan everything once more, then publish. */
    method FinalizeSanitization(ghost b: Build, ghost k: nat) returns (alive: bool, ok: bool)
      requires InPhases(b, k)
      modifies disk
      ensures disk.checkpoint == old(disk.checkpoint)
      ensures alive && ok ==> disk.output == Some(PublishedOutput(old(disk.output).value)) && Sound(clean, disk.output)
      ensures alive && ok ==> Durable(b, disk.checkpoint, disk.output) && !Stuck(disk.checkpoint, disk.output)
      ensures !(alive && ok) ==> InPhases(b, k)
      ensures alive && !ok ==> disk.output == Some(old(disk.output).value.(trust := Failed))
      ensures alive && !ok ==>
                !world.scans || !world.publishes || !clean(old(disk.output).value.versions, old(disk.output).value.data)
      ensures old(disk.budget).None? ==> alive && disk.budget.None?
    {
      hide Writing;
      WritingOutput(b, runId, k, disk.checkpoint, disk.output);
      WritingDurable(b, runId, k, disk.checkpoint, disk.output);
      var out := disk.output.value;
      if world.scans && clean(out.versions, out.data) && world.publishes {
        PublishedDurable(b, runId, k, disk.checkpoint, disk.output);
        alive := disk.SaveOutput(PublishedOutput(out));
        return alive, alive;
      }
      alive := MarkSanitizationFailed(b, k);
      return alive, false;
    }

    /** A pipeline object that has not run yet. */
    ghost predicate New()
      reads this
    {
      runId == world.runId && versionId.None? && key.None? && !recoverEmptyOutput && !upgradePending && !mustSanitize
    }

    /** First start: prepare the private intent, publish the version under it,
        and bind the two. */
    method Start(ghost b: Build) returns (stop: Option<Outcome>)
      requires For(b) && New() && disk.checkpoint.None? && Durable(b, None, disk.output) &&
               RowOf(Versions(b.base), world.runId).None?
      modifies this, disk
      ensures stop.None? ==>
                DataOf(disk.output) == DataOf(old(disk.output)) && TrustOf(disk.output) == Some(Unmarked)
      ensures stop.None? ==>
                InPhases(b, 0) && disk.checkpoint.value.phases == map[] && !mustSanitize && runId == world.runId
      ensures stop.Some? ==> stop.value == Crashed || stop.value == NoVersionsTable
      ensures stop == Some(NoVersionsTable) ==> b.base.Some? && EmptyOutput(b.base) && b.base.value.schema < CORE_STEPS
      ensures stop.Some? ==> Durable(b, disk.checkpoint, disk.output) && Continues(disk.checkpoint, world.runId)
      ensures stop.Some? ==>
                (Stuck(disk.checkpoint, disk.output) <==>
                   stop == Some(Crashed) && StuckWindow(old(disk.budget), b.base))
      ensures stop == Some(Crashed) ==> old(disk.budget).Some?
      ensures StuckWindow(old(disk.budget), b.base) ==>
                stop == Some(Crashed) && disk.output == old(disk.output) &&
                disk.checkpoint == Some(StrandedAt(settings, world, old(disk.budget).value))
      ensures old(disk.budget).None? ==> disk.budget.None?
    {
      hide InBuild, Keyed, UpTo;
      IntentPrepared(b, Blank(2), world.runId, world.key);
      var alive := PersistIdentityIntent(Prepared);
      if !alive { return Some(Crashed); }
      PreparedDurable(b, disk.checkpoint.value, disk.output);
      var ok;
      alive, ok := CreateVersionRecord(b);
      if !alive { return Some(Crashed); }
      if !ok { return Some(NoVersionsTable); }
      NothingRun(b.names);
      alive := Bind(b, 0, true);
      if !alive { return Some(Crashed); }
      return None;
    }

    /** Resume: restore the identity the build began with, finish whatever step
        of its publication is missing, revoke earlier evidence, and rebind. */
    method Resume(ghost b: Build) returns (stop: Option<Outcome>, start: nat)
      requires For(b) && New() && disk.checkpoint.Some? && Durable(b, disk.checkpoint, disk.output)
      modifies this, disk
      ensures stop == Some(Refused) <==> Stuck(old(disk.checkpoint), old(disk.output))
      ensures stop == Some(Refused) ==> disk.checkpoint == old(disk.checkpoint) && disk.output == old(disk.output)
      ensures stop.Some? ==> stop.value == Refused || (stop.value == Crashed && old(disk.budget).Some?)
      ensures stop != Some(Refused) ==>
                old(disk.checkpoint).value.Saved? && runId == old(disk.checkpoint).value.runId &&
                !Stuck(disk.checkpoint, disk.output)
      ensures stop == Some(Crashed) ==> Durable(b, disk.checkpoint, disk.output) && Continues(disk.checkpoint, runId)
      ensures stop == Some(Crashed) ==> disk.checkpoint.Some? && disk.checkpoint.value.Saved?
      ensures stop.None? ==>
                DataOf(disk.output) == DataOf(old(disk.output)) && TrustOf(disk.output) == Some(Unmarked)
      ensures stop.None? ==> InPhases(b, start) && disk.checkpoint.value.phases == old(disk.checkpoint).value.phases
      ensures stop.None? ==>
                (mustSanitize <==> old(disk.checkpoint).value.mustSanitize || old(disk.checkpoint).value.secret.NoKey?)
      ensures old(disk.budget).None? ==> disk.budget.None?
    {
      hide InBuild, Keyed, UpTo, Stuck, Restorable, Sound, Unpublished;
      start := 0;
      ghost var c := disk.checkpoint.value;
      RestorableUnlessStuck(b, c, disk.output);
      var ok := RestoreVersionIdentity();
      if !ok { return Some(Refused), 0; }
      var last := LastCheckpoint();
      LastIsPrefix(b, c, disk.output, last);
      start := last + 1;
      var alive, created := true, false;
      ResumeCases(b, c, disk.output);
      if key.None? || upgradePending {
        alive := UpgradeLegacyIdentity(b);
        if !alive { return Some(Crashed), 0; }
      }
      if versionId.None? {
        created := true;
        alive, ok := CreateVersionRecord(b);
        if !alive { return Some(Crashed), 0; }
      }
      alive := Bind(b, start, created);
      if !alive { return Some(Crashed), 0; }
      return None, start;
    }

    /** The phase loop, in order from `start`. */
    method RunPhases(ghost b: Build, ghost k: nat, start: nat) returns (stop: Option<Outcome>, ran: seq<nat>)
      requires InPhases(b, k) && start <= |names| && (start == k || (start == |names| - 1 && k == |names|))
      modifies disk
      ensures stop.None? ==>
                InPhases(b, |names|) && |ran| == |names| - start && forall j | 0 <= j < |ran| :: ran[j] == start + j
      ensures stop.None? ==> DataOf(disk.output) == AllHandled(world, start, |names|, DataOf(old(disk.output)))
      ensures stop.Some? ==> exists j: nat :: InPhases(b, j)
      ensures stop.Some? ==>
                stop.value == Crashed ||
                (stop.value.PhaseFailed? && Failing(stop.value.phase) && MarkedFor(stop.value.phase, old(disk.output)))
      ensures stop == Some(Crashed) ==> old(disk.budget).Some?
      ensures old(disk.budget).None? ==> disk.budget.None?
    {
      hide InPhases, Writing;
      ran := [];
      ghost var now: nat := k;
      for i := start to |names|
        invariant InPhases(b, now) && (i == now || (i == start == |names| - 1 && now == |names|))
        invariant TrustOf(disk.output) == TrustOf(old(disk.output))
        invariant |ran| == i - start && forall j | 0 <= j < |ran| :: ran[j] == start + j
        invariant DataOf(disk.output) == AllHandled(world, start, i, DataOf(old(disk.output)))
        invariant old(disk.budget).None? ==> disk.budget.None?
      {
        var alive, ok := RunPhase(b, now, i);
        if !alive { return Some(Crashed), ran; }
        if !ok { return Some(PhaseFailed(i)), ran; }
        ran := ran + [i];
        now := i + 1;
      }
      return None, ran;
    }

    /** The handler of phase i raised, and the checkpoint says so. */
    ghost predicate Failing(i: nat)
      reads disk
    {
      disk.checkpoint.Some? && disk.checkpoint.value.Saved? && i in disk.checkpoint.value.phases &&
      disk.checkpoint.value.phases[i].status == Broken &&
      exists step: nat, data :: world.handler(i, step, data) == Raise
    }

    /** The marker after a phase failed: FAILED if it was the sanitizer, and as it was otherwise. */
    ghost predicate MarkedFor(i: nat, before: Option<Output>)
      reads disk
    {
      i < |names| && TrustOf(disk.output) == if names[i] == "sanitize" then Some(Failed) else TrustOf(before)
    }

    /** After the last phase: completion, the final gate, and the end of the
        checkpoint. A gate that fails leaves the sanitize phase to be run again. */
    method Finish(ghost b: Build) returns (stop: Option<Outcome>)
      requires InPhases(b, |names|)
      modifies disk
      ensures stop.None? ==>
                Done(b, disk.checkpoint, disk.output, runId) && DataOf(disk.output) == DataOf(old(disk.output))
      ensures stop.Some? ==> Durable(b, disk.checkpoint, disk.output) && !Stuck(disk.checkpoint, disk.output)
      ensures stop.Some? ==> disk.checkpoint.Some? && Continues(disk.checkpoint, runId)
      ensures stop.Some? ==> stop.value == Crashed || (stop.value == GateFailed && Gated())
      ensures stop == Some(Crashed) ==> old(disk.budget).Some?
    {
      hide Writing, UpTo, InBuild, Done, Durable, Stuck, Continues, WellFormed, Honest;
      ghost var n := |names|;
      var alive := FinalizeVersionRecord(b, n);
      InPhasesResumes(b, n);
      if !alive { return Some(Crashed); }
      ghost var complete := disk.output;
      WritingSound(b, runId, n, disk.checkpoint, disk.output);
      if Sanitizes(names) {
        var ok;
        alive, ok := FinalizeSanitization(b, n);
        if !alive || !ok { InPhasesResumes(b, n); }
        if !alive { return Some(Crashed); }
        if !ok {
          alive := SaveCheckpoint(b, n, |names| - 1, Broken);
          InPhasesResumes(b, if alive then n - 1 else n);
          if !alive { return Some(Crashed); }
          return Some(GateFailed);
        }
      }
      ClearedDone(b, runId, n, disk.checkpoint, complete, disk.output.value);
      alive := disk.SaveCheckpoint(None);
      if !alive { return Some(Crashed); }
      return None;
    }

    /** The final gate's failure on record: no marker but FAILED, and sanitize to do again. */
    ghost predicate Gated()
      reads disk
    {
      disk.output.Some? && disk.output.value.trust == Failed &&
      disk.checkpoint.Some? && disk.checkpoint.value.Saved? && |names| > 0 &&
      |names| - 1 in disk.checkpoint.value.phases &&
      disk.checkpoint.value.phases[|names| - 1].status == Broken &&
      (!world.scans || !world.publishes || !clean(disk.output.value.versions, disk.output.value.data))
    }

    /** `_run`. */
    method Run(ghost b: Build) returns (outcome: Outcome)
      requires For(b) && New() && Durable(b, disk.checkpoint, disk.output)
      requires disk.checkpoint.None? ==> RowOf(Versions(b.base), world.runId).None?
      modifies this, disk
      ensures outcome.Finished? ==> Done(b, disk.checkpoint, disk.output, Original(old(disk.checkpoint), world.runId))
      ensures outcome.Finished? ==> AllRan(names, old(disk.checkpoint), outcome.ran) && |outcome.ran| <= |names|
      ensures outcome.Finished? ==>
                DataOf(disk.output) == AllHandled(world, |names| - |outcome.ran|, |names|, DataOf(old(disk.output)))
      ensures !outcome.Finished? ==> Durable(b, disk.checkpoint, disk.output)
      ensures !outcome.Finished? ==> Continues(disk.checkpoint, Original(old(disk.checkpoint), world.runId))
      ensures outcome == Refused <==> Stuck(old(disk.checkpoint), old(disk.output))
      ensures outcome == Refused ==> disk.checkpoint == old(disk.checkpoint) && disk.output == old(disk.output)
      ensures old(disk.checkpoint).Some? && outcome != Refused && !outcome.Finished? ==>
                disk.checkpoint.Some? && disk.checkpoint.value.Saved? && !Stuck(disk.checkpoint, disk.output)
      ensures old(disk.checkpoint).None? && !outcome.Finished? ==>
                (Stuck(disk.checkpoint, disk.output) <==> StuckWindow(old(disk.budget), b.base))
      ensures old(disk.checkpoint).None? && StuckWindow(old(disk.budget), b.base) ==>
                outcome == Crashed && disk.output == old(disk.output) &&
                disk.checkpoint == Some(StrandedAt(settings, world, old(disk.budget).value))
      ensures outcome == Crashed ==> old(disk.budget).Some?
      ensures outcome == NoVersionsTable ==> b.base.Some? && EmptyOutput(b.base) && b.base.value.schema < CORE_STEPS
      ensures outcome.PhaseFailed? ==>
                Failing(outcome.phase) && outcome.phase < |names| &&
                TrustOf(disk.output) == Some(if names[outcome.phase] == "sanitize" then Failed else Unmarked)
      ensures outcome == GateFailed ==> Gated()
    {
      hide Durable, Stuck, InPhases, Done, UpTo, Failing, Gated, StuckWindow, EmptyOutput, Restorable, Versions, RowOf;
      ghost var before := disk.checkpoint;
      var stop, start := None, 0;
      if disk.checkpoint.Some? {
        stop, start := Resume(b);
      } else {
        NoCheckpoint(b, disk.output);
        stop := Start(b);
      }
      if stop.Some? { return stop.value; }
      ghost var k: nat := start;
      InPhasesUpTo(b, k);
      ghost var phases := disk.checkpoint.value.phases;
      if mustSanitize && Sanitizes(names) {
        start := if start <= |names| - 1 then start else |names| - 1;
      }
      var ran;
      stop, ran := RunPhases(b, k, start);
      if stop.Some? {
        ghost var j: nat :| InPhases(b, j);
        InPhasesResumes(b, j);
        NotStuckSaved(disk.checkpoint, disk.output);
        return stop.value;
      }
      AllPhasesRan(names, before, phases, k, start, ran);
      stop := Finish(b);
      if stop.Some? {
        NotStuckSaved(disk.checkpoint, disk.output);
        return stop.value;
      }
      return Finished(ran);
    }

    lemma InPhasesUpTo(b: Build, k: nat)
      requires InPhases(b, k)
      ensures disk.checkpoint.Some? && disk.checkpoint.value.Saved? && UpTo(names, disk.checkpoint.value.phases, k) &&
              k <= |names|
    {}

    lemma InPhasesResumes(b: Build, k: nat)
      requires InPhases(b, k)
      ensures Durable(b, disk.checkpoint, disk.output) && !Stuck(disk.checkpoint, disk.output)
      ensures disk.checkpoint.Some? && Continues(disk.checkpoint, runId)
    {
      WritingDurable(b, runId, k, disk.checkpoint, disk.output);
      hide Writing, Durable, Stuck;
    }

    lemma InPhasesParts(b: Build, k: nat)
      requires InPhases(b, k)
      ensures disk.checkpoint.Some? && disk.checkpoint.value.Saved? && disk.output.Some?
    {}
  }

  lemma LastIsPrefix(b: Build, c: Checkpoint, out: Option<Output>, last: int)
    requires c.Saved? && InBuild(b, c, out)
    requires forall k: nat | UpTo(b.names, c.phases, k) :: -1 <= last < |b.names| && UpTo(b.names, c.phases, last + 1)
    ensures -1 <= last < |b.names| && UpTo(b.names, c.phases, last + 1)
  {
    hide UpTo;
  }

  /** What the restored identity state says about the output. */
  lemma ResumeCases(b: Build, c: Checkpoint, out: Option<Output>)
    requires c.Saved? && Durable(b, Some(c), out) && !Stuck(Some(c), out)
    ensures c.secret.Private? && c.secret.state == Prepared ==>
              var row := RowOf(Versions(out), c.runId);
              c.versionId.None? && !c.mustSanitize && c.phases == map[] &&
              if row.Some? then Keyed(b, c, out, row.value)
              else Unpublished(b, c.runId, out) && EmptyOutput(out) && EmptyOutput(b.base)
    ensures c.secret.Private? && c.secret.state == Bound ==> c.versionId.Some? && Keyed(b, c, out, c.versionId.value)
    ensures c.secret.Private? && c.secret.state == Upgrading ==> c.versionId.Some? && c.mustSanitize
    ensures c.secret.NoKey? ==> c.versionId.Some?
    ensures InBuild(b, c, out)
  {
    hide UpTo;
    if c.secret.Private? && c.secret.state == Prepared {
      PreparedRow(b, c, out);
    }
  }

  /** The run id the build began with: the checkpoint's, or a new one. */
  function Original(cp: Option<Checkpoint>, drawn: string): string {
    if cp.Some? && cp.value.Saved? then cp.value.runId else drawn
  }

  ghost predicate CompleteIn(cp: Option<Checkpoint>, i: nat) {
    cp.Some? && cp.value.Saved? && i in cp.value.phases && cp.value.phases[i].status == Complete
  }

  /** Every phase ran in this process, in order, or was complete before it; and
      sanitize ran in it whenever an older identity has been rewritten. */
  ghost predicate AllRan(names: seq<string>, before: Option<Checkpoint>, ran: seq<nat>) {
    (forall i: nat | i < |names| :: i in ran || CompleteIn(before, i)) &&
    (forall j | 0 < j < |ran| :: ran[j] == ran[j - 1] + 1) &&
    (before.Some? && before.value.Saved? && (before.value.mustSanitize || before.value.secret.NoKey?) &&
     Sanitizes(names) ==>
       |names| - 1 in ran)
  }

  lemma AllPhasesRan(names: seq<string>, before: Option<Checkpoint>, phases: Phases, k: nat, start: nat, ran: seq<nat>)
    requires UpTo(names, phases, k) && start <= k <= |names|
    requires if before.Some? then before.value.Saved? && phases == before.value.phases else k == 0
    requires |ran| == |names| - start && forall j | 0 <= j < |ran| :: ran[j] == start + j
    requires before.Some? && (before.value.mustSanitize || before.value.secret.NoKey?) && Sanitizes(names) ==>
              start <= |names| - 1
    ensures AllRan(names, before, ran)
  {
    forall i: nat | i < |names| ensures i in ran || CompleteIn(before, i) {
      if i >= start { assert ran[i - start] == i; }
    }
    if |names| > 0 && start <= |names| - 1 { assert ran[|names| - 1 - start] == |names| - 1; }
  }

  lemma NotStuckSaved(cp: Option<Checkpoint>, out: Option<Output>)
    requires cp.Some? && !Stuck(cp, out)
    ensures cp.value.Saved?
  {}

  lemma NoCheckpoint(b: Build, out: Option<Output>)
    ensures !Stuck(None, out)
  {}

  /** The prepared state while nothing is published: an empty output stays empty,
      whatever its schema; any other is untouched. */
  lemma PreparedState(b: Build, c: Checkpoint, before: Option<Output>, now: Option<Output>)
    requires c.Saved? && c.secret.Private? && c.secret.state == Prepared && Durable(b, Some(c), before) &&
             Unpublished(b, c.runId, before)
    requires now == before || (EmptyOutput(before) && EmptyOutput(now) && Sound(b.clean, now))
    ensures Durable(b, Some(c), now) && Unpublished(b, c.runId, now) && InBuild(b, c, now) && Sound(b.clean, now)
    ensures Stuck(Some(c), now) <==> !EmptyOutput(b.base)
    ensures EmptyOutput(now) <==> EmptyOutput(b.base)
    ensures now.None? ==> EmptyOutput(now)
    ensures EmptyOutput(now) ==> DataOf(now) == []
    ensures now.Some? && now.value.schema < CORE_STEPS ==> EmptyOutput(now)
  {
    hide UpTo, Keyed;
  }

  lemma InsertedState(b: Build, c: Checkpoint, out: Output)
    requires b.Valid() && c.Saved? && c.secret.Private? && c.secret.state == Prepared && Durable(b, Some(c), Some(out))
    requires out.schema >= CORE_STEPS && Unpublished(b, c.runId, Some(out))
    ensures var next := Inserted(out, NewVersion(b.settings, c.runId, c.secret.key));
            Durable(b, Some(c), Some(next)) && RowOf(next.versions, c.runId) == Some(|Versions(b.base)|) &&
            Keyed(b, c, Some(next), |Versions(b.base)|) && next.trust == Unmarked && next.data == out.data
  {
    InsertedKeyed(b, c, out);
    hide UpTo, Keyed, Unpublished;
    var next := Inserted(out, NewVersion(b.settings, c.runId, c.secret.key));
    RowOfUnique(next.versions, c.runId, |out.versions|);
  }

  lemma NothingRun(names: seq<string>)
    ensures UpTo(names, map[], 0)
  {}

  /** A process that dies having made exactly this many durable steps strands a
      build that is just starting: inside the creation of the checkpoint, or
      between the intent and the version of an output that was not empty. */
  predicate StuckWindow(budget: Option<nat>, base: Option<Output>) {
    budget.Some? && (1 <= budget.value <= 3 || (budget.value == 4 && !EmptyOutput(base)))
  }

  /** What such a process leaves of its checkpoint. */
  function StrandedAt(settings: Settings, world: World, budget: nat): Checkpoint
    requires 1 <= budget
  {
    if budget <= 3 then Blank(budget - 1)
    else Intent(Blank(2), settings, Prepared, world.runId, None, world.key)
  }

  /** Whatever checkpoint there is belongs to this run. */
  ghost predicate Continues(cp: Option<Checkpoint>, runId: string) {
    cp.Some? && cp.value.Saved? ==> cp.value.runId == runId
  }

  lemma PreparedDurable(b: Build, c: Checkpoint, out: Option<Output>)
    requires b.Valid() && out == b.base && c.Saved? && c.secret.Private? && c.secret.state == Prepared &&
             InBuild(b, c, out)
    requires RowOf(Versions(b.base), c.runId).None?
    ensures Durable(b, Some(c), out) && Unpublished(b, c.runId, out)
    ensures Stuck(Some(c), out) <==> !EmptyOutput(b.base)
  {
    hide UpTo;
  }

  lemma KeyedNotStuck(b: Build, c: Checkpoint, out: Option<Output>, i: nat)
    requires c.Saved? && c.secret.Private? && Keyed(b, c, out, i)
    ensures !Stuck(Some(c), out) && out.Some?
  {
    assert out.value.versions[i].runId == c.runId;
  }

  lemma RevokedKeyed(b: Build, c: Checkpoint, out: Output, i: nat)
    requires c.Saved? && c.secret.Private? && InBuild(b, c, Some(out)) && Keyed(b, c, Some(out), i) &&
             Sound(b.clean, Some(out))
    requires c.versionId.Some? ==> c.versionId == Some(i)
    ensures var next := Some(out.(trust := Unmarked));
            InBuild(b, c, next) && Keyed(b, c, next, i) && Sound(b.clean, next)
  {
    hide UpTo;
  }

  lemma WritingSound(b: Build, runId: string, k: nat, cp: Option<Checkpoint>, out: Option<Output>)
    requires Writing(b, runId, k, cp, out)
    ensures out.Some? && Sound(b.clean, out)
  {}

  lemma WritingOutput(b: Build, runId: string, k: nat, cp: Option<Checkpoint>, out: Option<Output>)
    requires Writing(b, runId, k, cp, out)
    ensures out.Some? && !out.value.trust.Verified?
  {}

  // ---- Whole histories ----

  /** An attempt that nothing outside disturbs: it is not killed and no handler raises. */
  ghost predicate Calm(h: (World, Option<nat>)) {
    h.1.None? && forall i, step, data :: h.0.handler(i, step, data) != Raise
  }

  /** Any history of attempts: each draws its own run id and key, does its own
      work, and may be killed after any number of durable steps. */
  method BuildThroughCrashes(settings: Settings, names: seq<string>, clean: Clean, checkpoint: Option<Checkpoint>,
                             output: Option<Output>, history: seq<(World, Option<nat>)>)
    returns (outcome: Outcome, cp: Option<Checkpoint>, out: Option<Output>, ghost runId: string)
    requires var b := Build(settings, names, clean, output); b.Valid() && Durable(b, checkpoint, output)
    requires history != [] && forall h | h in history :: RowOf(Versions(output), h.0.runId).None?
    ensures checkpoint.Some? && checkpoint.value.Saved? ==> runId == checkpoint.value.runId
    ensures var b := Build(settings, names, clean, output);
            if outcome.Finished? then Done(b, cp, out, runId) else Durable(b, cp, out) && Continues(cp, runId)
    ensures outcome == Refused ==> Stuck(cp, out)
    ensures outcome == Refused ==> Stuck(checkpoint, output) || exists h :: h in history && StuckWindow(h.1, output)
    ensures Calm(history[|history| - 1]) && !Stuck(checkpoint, output) &&
            (forall h | h in history :: !StuckWindow(h.1, output)) &&
            (output.Some? ==> output.value.schema >= CORE_STEPS) ==>
              outcome.Finished? ||
              (outcome == GateFailed && (!history[|history| - 1].0.scans || !history[|history| - 1].0.publishes ||
                                         (out.Some? && !clean(out.value.versions, out.value.data))))
  {
    hide Durable, Stuck, Done, Restorable, Versions, RowOf, StuckWindow;
    ghost var b := Build(settings, names, clean, output);
    cp, out, outcome := checkpoint, output, Crashed;
    runId := Original(checkpoint, "");
    ghost var stranded := Stuck(checkpoint, output);
    for n := 0 to |history|
      invariant Durable(b, cp, out) && !outcome.Finished? && Continues(cp, runId)
      invariant checkpoint.Some? && checkpoint.value.Saved? ==> runId == checkpoint.value.runId
      invariant Stuck(cp, out) ==> stranded || exists h :: h in history && StuckWindow(h.1, output)
      invariant outcome == Refused ==> Stuck(cp, out)
      invariant checkpoint.Some? ==> cp.Some? && (checkpoint.value.Saved? ==> cp.value.Saved?)
      invariant n == |history| && Calm(history[n - 1]) && !stranded &&
                (forall h | h in history :: !StuckWindow(h.1, output)) &&
                (output.Some? ==> output.value.schema >= CORE_STEPS) ==>
                  outcome == GateFailed && (!history[n - 1].0.scans || !history[n - 1].0.publishes ||
                                            (out.Some? && !clean(out.value.versions, out.value.data)))
    {
      ghost var h := history[n];
      assert h in history;
      var disk := new Disk(cp, out, history[n].1);
      var pipeline := new Pipeline(disk, settings, names, clean, history[n].0);
      ghost var original := Original(cp, history[n].0.runId);
      outcome := pipeline.Run(b);
      ghost var fresh' := cp.None? || !cp.value.Saved?;
      cp, out := disk.checkpoint, disk.output;
      if fresh' { runId := original; }
      if outcome.Finished? { return; }
    }
  }

  /** Two such builds, over an output with an earlier run in it: dead after one
      durable step, without the checkpoint's metadata, and after four, with an
      intent whose version was not inserted. */
  lemma StrandedStates(w: World)
    requires w.runId == "b"
    ensures var s := Settings("/src", "windows", false, None);
            var old' := Version("a", "windows", "/old", Unstated, Some(0));
            var earlier := Some(Output(SCHEMA_STEPS, [old'], [], Unmarked));
            var b := Build(s, ["init"], (v, d) => true, earlier);
            var intent := Saved("b", None, None, Private(Prepared, w.key, s), false, map[]);
            b.Valid() && RowOf(Versions(earlier), w.runId).None? &&
            StuckWindow(Some(1), earlier) && StrandedAt(s, w, 1) == Blank(0) &&
            Durable(b, Some(Blank(0)), earlier) && Stuck(Some(Blank(0)), earlier) &&
            StuckWindow(Some(4), earlier) && StrandedAt(s, w, 4) == intent &&
            Durable(b, Some(intent), earlier) && Stuck(Some(intent), earlier)
  {
    assert UpTo(["init"], map[], 0);
  }

  /** A process that dies in the window strands its build for good: it leaves the
      output as it found it beside a checkpoint that every later process refuses,
      changing nothing. */
  method StrandedForever(settings: Settings, names: seq<string>, clean: Clean, output: Option<Output>,
                         first: World, budget: nat, later: seq<(World, Option<nat>)>)
    returns (outcome: Outcome, cp: Option<Checkpoint>, out: Option<Output>)
    requires var b := Build(settings, names, clean, output); b.Valid() && Durable(b, None, output)
    requires RowOf(Versions(output), first.runId).None? && StuckWindow(Some(budget), output)
    ensures cp == Some(StrandedAt(settings, first, budget)) && out == output
    ensures outcome == if later == [] then Crashed else Refused
  {
    hide Durable, Stuck, Done, Restorable, Versions, RowOf, EmptyOutput;
    ghost var b := Build(settings, names, clean, output);
    var disk := new Disk(None, output, Some(budget));
    var pipeline := new Pipeline(disk, settings, names, clean, first);
    outcome := pipeline.Run(b);
    cp, out := disk.checkpoint, disk.output;
    for n := 0 to |later|
      invariant cp == Some(StrandedAt(settings, first, budget)) && out == output
      invariant Durable(b, cp, out) && Stuck(cp, out)
      invariant outcome == if n == 0 then Crashed else Refused
    {
      disk := new Disk(cp, out, later[n].1);
      pipeline := new Pipeline(disk, settings, names, clean, later[n].0);
      outcome := pipeline.Run(b);
      cp, out := disk.checkpoint, disk.output;
    }
  }
}
