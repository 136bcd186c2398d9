/** The crash-safe walk: batch commits of rows, statistics and the next input
    position on one SQLite connection, resumed after a process death at any
    point. The work itself is described in `SourceTree`. */
module IngestProgress {
  import opened Wrappers
  import opened ByteOrder
  import opened Collections
  import opened SourceTree

  type Stats = map<string, int>

  /** An entity row: its data columns (one opaque value) and its provenance
      columns. A row's id is its position: ids are handed out by AUTOINCREMENT. */
  datatype Row = Row(data: int, version: Option<int>, observed: Option<int>)

  type Tables = map<string, seq<Row>>

  /** A `versions` row without completion time. */
  datatype Version = Version(id: int, runId: string, startedAt: int)

  datatype Identity = Identity(root: Bytes, parser: string, runId: Option<string>)

  datatype StateRow = StateRow(identity: Identity, stats: Stats)

  /** One image of the output database. `state` and `frontier` are the private
      progress tables: absent, or present with their contents. */
  datatype Database = Database(
    tables: Tables, active: seq<Version>, state: Option<Option<StateRow>>, frontier: Option<Frontier>)

  /** What a parser sees and extends: data columns per table, and statistics. */
  datatype Content = Content(rows: map<string, seq<int>>, stats: Stats) {
    ghost predicate GrowsTo(c: Content) {
      rows.Keys == c.rows.Keys && stats.Keys <= c.stats.Keys &&
      forall t | t in rows :: rows[t] <= c.rows[t]
    }
  }

  /** A filesystem parser: what ingesting one file adds, as a function of the
      rows and statistics so far. Parsers only append rows. */
  datatype Parser = Parser(name: string, extract: (Content, Path, Name) -> Content) {
    ghost predicate Valid() {
      forall c: Content, d: Path, f: Name :: c.GrowsTo(extract(c, d, f))
    }
  }

  function View(tables: Tables): map<string, seq<int>> {
    map t | t in tables :: Data(tables[t])
  }

  function Data(rows: seq<Row>): seq<int> {
    seq(|rows|, i requires 0 <= i < |rows| => rows[i].data)
  }

  function Fresh(data: seq<int>): seq<Row> {
    seq(|data|, i requires 0 <= i < |data| => Row(data[i], None, None))
  }

  /** `SET source_version_id = ?, observed_time = COALESCE(observed_time, ?)`. */
  function Stamp(version: Option<Version>, row: Row): Row {
    if version.None? then row
    else row.(version := Some(version.value.id),
              observed := if row.observed.Some? then row.observed else Some(version.value.startedAt))
  }

  /** `UPDATE ... WHERE id > watermark` on one table. */
  function StampAfter(version: Option<Version>, watermark: nat, rows: seq<Row>): (r: seq<Row>) {
    seq(|rows|, i requires 0 <= i < |rows| => if i < watermark then rows[i] else Stamp(version, rows[i]))
  }

  function Heights(tables: Tables): map<string, nat> {
    map t | t in tables :: |tables[t]|
  }

  // ---- What an ingest must produce ----

  /** The whole problem an ingest solves: the source, the parser, the database it
      starts from and the statistics it starts with. */
  datatype Job = Job(src: Source, parser: Parser, base: Tables, active: seq<Version>, initial: Stats) {
    ghost predicate Valid() { src.Valid() && parser.Valid() && |active| <= 1 }
    function Run(): Option<Version> { if |active| == 1 then Some(active[0]) else None }
    function Owner(): Identity {
      Identity(src.root, parser.name, if Run().Some? then Some(Run().value.runId) else None)
    }
  }

  ghost function Ingested(parser: Parser, c: Content, work: seq<(Path, Name)>): Content
    decreases |work|
  {
    if work == [] then c
    else Ingested(parser, parser.extract(c, work[0].0, work[0].1), work[1..])
  }

  /** The uninterrupted walk: every file of the source once, in walk order. */
  ghost function Target(job: Job): Content
    requires job.Valid()
  {
    Ingested(job.parser, Content(View(job.base), job.initial), Work(job.src, START))
  }

  /** The earlier rows untouched, the new ones stamped with this run's version. */
  ghost function Rendered(version: Option<Version>, base: Tables, c: Content): Tables
    requires c.rows.Keys == base.Keys
  {
    map t | t in base ::
      base[t] + StampAfter(version, 0, Fresh(c.rows[t][if |base[t]| <= |c.rows[t]| then |base[t]| else 0..]))
  }

  /** Rows before `base` are as they were, rows up to the watermark are stamped,
      rows past it are still unstamped. */
  ghost predicate Stamped(version: Option<Version>, base: seq<Row>, watermark: nat, rows: seq<Row>) {
    |base| <= watermark <= |rows| &&
    forall i | 0 <= i < |rows| ::
      rows[i] == if i < |base| then base[i]
                 else if i < watermark then Stamp(version, Row(rows[i].data, None, None))
                 else Row(rows[i].data, None, None)
  }

  ghost predicate AllStamped(version: Option<Version>, base: Tables, marks: map<string, nat>, tables: Tables) {
    tables.Keys == base.Keys && marks.Keys == base.Keys &&
    forall t | t in base :: Stamped(version, base[t], marks[t], tables[t])
  }

  lemma StampedIsRendered(version: Option<Version>, base: Tables, tables: Tables, stats: Stats)
    requires AllStamped(version, base, Heights(tables), tables)
    ensures tables == Rendered(version, base, Content(View(tables), stats))
  {
    var r := Rendered(version, base, Content(View(tables), stats));
    forall t | t in base ensures tables[t] == r[t] {
      StampedRows(version, base[t], tables[t]);
    }
  }

  lemma StampedRows(version: Option<Version>, base: seq<Row>, rows: seq<Row>)
    requires Stamped(version, base, |rows|, rows)
    ensures rows == base + StampAfter(version, 0, Fresh(Data(rows)[|base|..]))
  {}

  /** No crash here loses or repeats work: finishing from this durable image
      gives the uninterrupted result. */
  ghost predicate Recoverable(job: Job, db: Database)
    requires job.Valid()
  {
    db.active == job.active &&
    AllStamped(job.Run(), job.base, Heights(db.tables), db.tables) &&
    match db.state
    case Some(Some(row)) =>
      row.identity == job.Owner() && job.initial.Keys <= row.stats.Keys &&
      Ingested(job.parser, Content(View(db.tables), row.stats),
               Work(job.src, if db.frontier.Some? then db.frontier.value else map[])) == Target(job)
    case _ =>
      (db.frontier.Some? ==> db.frontier.value == map[] && db.state.Some?) && db.tables == job.base
  }

  /** The finished ingest: no private progress state, the uninterrupted rows. */
  ghost predicate Complete(job: Job, db: Database)
    requires job.Valid()
  {
    db.active == job.active && db.state.None? && db.frontier.None? &&
    Target(job).rows.Keys == job.base.Keys &&
    db.tables == Rendered(job.Run(), job.base, Target(job))
  }

  /** Provenance, in every durable image an ingest can leave and in the finished
      one: the rows that were there before are untouched; every row since carries
      the id of the one active version and the time that version started, or
      nothing when no version is active. */
  lemma Provenance(job: Job, db: Database, t: string, i: nat)
    requires job.Valid() && (Complete(job, db) || Recoverable(job, db))
    requires t in db.tables && i < |db.tables[t]|
    ensures t in job.base
    ensures i < |job.base[t]| ==> db.tables[t][i] == job.base[t][i]
    ensures i >= |job.base[t]| && job.active == [] ==>
              db.tables[t][i].version == None && db.tables[t][i].observed == None
    ensures i >= |job.base[t]| && job.active != [] ==>
              db.tables[t][i].version == Some(job.active[0].id) &&
              db.tables[t][i].observed == Some(job.active[0].startedAt)
  {
    hide Target, Ingested, Work;
  }

  /** Stamping a row again changes the version and nothing else: an observed time,
      once there, stays. */
  lemma StampedAgain(v: Version, w: Version, row: Row)
    ensures Stamp(Some(w), Stamp(Some(v), row)) == Stamp(Some(v), row).(version := Some(w.id))
    ensures row.observed.Some? ==> Stamp(Some(v), row).observed == row.observed
    ensures Stamp(Some(v), row).data == row.data
  {
  }

  lemma {:induction false} IngestedGrows(parser: Parser, c: Content, work: seq<(Path, Name)>)
    requires parser.Valid()
    ensures c.GrowsTo(Ingested(parser, c, work))
    decreases |work|
  {
    if work != [] {
      var next := parser.extract(c, work[0].0, work[0].1);
      IngestedGrows(parser, next, work[1..]);
      forall t | t in c.rows ensures c.rows[t] <= Ingested(parser, c, work).rows[t] {
        assert c.rows[t] <= next.rows[t] <= Ingested(parser, next, work[1..]).rows[t];
      }
    }
  }

  // ---- The connection ----

  /** One SQLite connection. `durable` survives a process death, `working` does
      not. `budget` counts the durable steps left before the process dies; the
      death comes instead of the next one, so every crash point is covered, and
      `steps` counts those that were taken. */
  class Connection {
    var durable: Database
    var working: Database
    var inTransaction: bool
    var budget: Option<nat>
    ghost var steps: nat

    constructor (image: Database, budget: Option<nat>)
      ensures durable == image && working == image && !inTransaction && this.budget == budget && steps == 0
    {
      durable, working, inTransaction, this.budget := image, image, false, budget;
      steps := 0;
    }

    /** Any INSERT, UPDATE or DELETE: opens a transaction implicitly. */
    method Execute(next: Database)
      modifies this`working, this`inTransaction
      ensures working == next && inTransaction
    {
      working, inTransaction := next, true;
    }

    method Die()
      modifies this`working, this`inTransaction
      ensures working == durable && !inTransaction
    {
      working, inTransaction := durable, false;
    }

    method Commit() returns (alive: bool)
      modifies this
      ensures !inTransaction && working == durable
      ensures alive ==> durable == old(working)
      ensures !alive ==> durable == old(durable) && old(budget).Some?
      ensures (alive <==> old(budget) != Some(0)) && steps == old(steps) + if alive then 1 else 0
      ensures old(budget).None? ==> budget.None?
    {
      alive := Spend();
      if !alive {
        Die();
        return;
      }
      durable, inTransaction := working, false;
    }

    /** CREATE and DROP: durable at once unless a transaction is open. */
    method ExecuteDdl(next: Database) returns (alive: bool)
      modifies this
      ensures alive && !old(inTransaction) ==> durable == working == next && !inTransaction
      ensures alive && old(inTransaction) ==> durable == old(durable) && working == next && inTransaction
      ensures !alive ==> durable == old(durable) && working == durable && !inTransaction && old(budget).Some?
      ensures alive <==> old(inTransaction) || old(budget) != Some(0)
      ensures steps == old(steps) + if alive && !old(inTransaction) then 1 else 0
      ensures old(budget).None? ==> budget.None?
    {
      alive := true;
      if !inTransaction {
        alive := Spend();
        if !alive {
          Die();
          return;
        }
        durable := next;
      }
      working := next;
    }

    /** One durable step, if the process lives to take it. */
    method Spend() returns (alive: bool)
      modifies this`budget, this`steps
      ensures alive <==> old(budget) != Some(0)
      ensures steps == old(steps) + if alive then 1 else 0
      ensures budget.Some? <==> old(budget).Some?
      ensures alive && budget.Some? ==> budget.value + 1 == old(budget).value
    {
      alive := budget != Some(0);
      if alive {
        steps := steps + 1;
        if budget.Some? { budget := Some(budget.value - 1); }
      }
    }
  }

  // ---- What each step of the walk does to the database image ----

  function Appended(tables: Tables, rows: map<string, seq<int>>): Tables {
    map t | t in tables ::
      if t in rows && |tables[t]| <= |rows[t]| then tables[t] + Fresh(rows[t][|tables[t]|..]) else tables[t]
  }

  /** One file's rows arrive at the end of their tables, not yet stamped. */
  function Extracted(parser: Parser, db: Database, stats: Stats, d: Path, f: Name): (r: (Database, Stats)) {
    var after := parser.extract(Content(View(db.tables), stats), d, f);
    (db.(tables := Appended(db.tables, after.rows)), after.stats)
  }

  function Restamped(version: Option<Version>, marks: map<string, nat>, tables: Tables): Tables {
    if version.None? then tables
    else map t | t in tables :: StampAfter(version, if t in marks then marks[t] else 0, tables[t])
  }

  /** `_commit` before its COMMIT: new rows stamped, statistics saved. */
  function Sealed(version: Option<Version>, db: Database, stats: Stats, marks: map<string, nat>): Database {
    db.(tables := Restamped(version, marks, db.tables),
        state := match db.state
                 case Some(Some(row)) => Some(Some(row.(stats := stats)))
                 case other => other)
  }

  /** A working image inside the walk, with `work` still to ingest. */
  ghost predicate Walking(job: Job, db: Database, stats: Stats, marks: map<string, nat>, work: seq<(Path, Name)>)
    requires job.Valid()
  {
    db.active == job.active && db.frontier.Some? &&
    db.state.Some? && db.state.value.Some? && db.state.value.value.identity == job.Owner() &&
    job.initial.Keys <= stats.Keys &&
    AllStamped(job.Run(), job.base, marks, db.tables) &&
    Ingested(job.parser, Content(View(db.tables), stats), work) == Target(job)
  }

  /** A first attempt, or one that died before its first commit. */
  lemma EnterFresh(job: Job, db: Database)
    requires job.Valid() && Recoverable(job, db) && db.state == Some(None) && db.frontier.Some?
    ensures db.frontier == Some(map[])
    ensures Walking(job, db.(state := Some(Some(StateRow(job.Owner(), job.initial))), frontier := Some(START)),
                    job.initial, Heights(db.tables), Work(job.src, START))
  {}

  /** A resumed attempt: the saved statistics replace the initial ones. */
  lemma EnterResumed(job: Job, db: Database)
    requires job.Valid() && Recoverable(job, db) && db.frontier.Some? && db.state.Some? && db.state.value.Some?
    ensures db.state.value.value.identity == job.Owner()
    ensures job.initial + db.state.value.value.stats == db.state.value.value.stats
    ensures Walking(job, db, db.state.value.value.stats, Heights(db.tables), Work(job.src, db.frontier.value))
  {}

  /** Creating a progress table is itself a durable step that changes nothing. */
  lemma CreateTables(job: Job, db: Database)
    requires job.Valid() && Recoverable(job, db)
    ensures db.state.None? ==> Recoverable(job, db.(state := Some(None)))
    ensures db.state.Some? && db.frontier.None? ==> Recoverable(job, db.(frontier := Some(map[])))
  {}

  lemma ExtractStep(job: Job, db: Database, stats: Stats, marks: map<string, nat>, d: Path, f: Name,
                    rest: seq<(Path, Name)>)
    requires job.Valid() && Walking(job, db, stats, marks, [(d, f)] + rest)
    ensures var (next, after) := Extracted(job.parser, db, stats, d, f);
            Walking(job, next, after, marks, rest) && next.frontier == db.frontier
  {
    var before := Content(View(db.tables), stats);
    var after := job.parser.extract(before, d, f);
    assert before.GrowsTo(after);
    hide Source.Valid, Parser.Valid, Target, AllStamped;
    var work := [(d, f)] + rest;
    assert work[1..] == rest;
    assert Ingested(job.parser, before, work) == Ingested(job.parser, after, rest);
    AppendedView(db.tables, after.rows);
    AppendedStamped(job.Run(), job.base, marks, db.tables, after.rows);
  }

  lemma AppendedView(tables: Tables, rows: map<string, seq<int>>)
    requires rows.Keys == tables.Keys
    requires forall t | t in tables :: View(tables)[t] <= rows[t]
    ensures View(Appended(tables, rows)) == rows
  {
    forall t | t in tables ensures Data(Appended(tables, rows)[t]) == rows[t] {
      AppendedData(tables[t], rows[t]);
    }
  }

  lemma AppendedData(rows0: seq<Row>, data: seq<int>)
    requires Data(rows0) <= data
    ensures Data(rows0 + Fresh(data[|rows0|..])) == data
  {}

  lemma AppendedStamped(version: Option<Version>, base: Tables, marks: map<string, nat>, tables: Tables,
                        rows: map<string, seq<int>>)
    requires AllStamped(version, base, marks, tables)
    ensures AllStamped(version, base, marks, Appended(tables, rows))
  {
    forall t | t in base ensures Stamped(version, base[t], marks[t], Appended(tables, rows)[t]) {
      assert Stamped(version, base[t], marks[t], tables[t]);
    }
  }

  /** Publishing at any point where the frontier describes the work left is safe. */
  lemma CommitStep(job: Job, db: Database, stats: Stats, marks: map<string, nat>)
    requires job.Valid() && db.frontier.Some?
    requires Walking(job, db, stats, marks, Work(job.src, db.frontier.value))
    ensures var next := Sealed(job.Run(), db, stats, marks);
            next.frontier == db.frontier && Recoverable(job, next) && View(next.tables) == View(db.tables) &&
            next.state == Some(Some(StateRow(job.Owner(), stats))) &&
            Walking(job, next, stats, Heights(next.tables), Work(job.src, db.frontier.value))
  {
    hide Source.Valid, Parser.Valid, Target, AllStamped, Work, Ingested;
    SealedTables(job.Run(), job.base, marks, db.tables);
  }

  lemma SealedTables(version: Option<Version>, base: Tables, marks: map<string, nat>, tables: Tables)
    requires AllStamped(version, base, marks, tables)
    ensures var next := Restamped(version, marks, tables);
            View(next) == View(tables) && AllStamped(version, base, Heights(next), next)
  {
    var next := Restamped(version, marks, tables);
    forall t | t in base
      ensures Data(next[t]) == Data(tables[t])
      ensures Stamped(version, base[t], |next[t]|, next[t])
    {
      SealedRows(version, base[t], marks[t], tables[t]);
      hide Stamped, StampAfter, Data;
    }
    hide Stamped, StampAfter, Data;
    assert View(next) == View(tables);
  }

  lemma SealedRows(version: Option<Version>, base: seq<Row>, mark: nat, rows: seq<Row>)
    requires Stamped(version, base, mark, rows)
    ensures Data(StampAfter(version, mark, rows)) == Data(rows)
    ensures Stamped(version, base, |rows|, StampAfter(version, mark, rows))
    ensures version.None? ==> Stamped(version, base, |rows|, rows)
  {}

  /** Moving a cursor or a directory in the frontier is private to the walk. */
  lemma FrontierStep(job: Job, db: Database, fr: Frontier, stats: Stats, marks: map<string, nat>,
                     work: seq<(Path, Name)>)
    requires job.Valid() && Walking(job, db, stats, marks, work)
    ensures Walking(job, db.(frontier := Some(fr)), stats, marks, work)
  {}

  /** The two final drops, and the state between them. */
  lemma DropStep(job: Job, db: Database, stats: Stats)
    requires job.Valid() && Recoverable(job, db) && db.frontier == Some(map[])
    requires db.state == Some(Some(StateRow(job.Owner(), stats)))
    ensures Recoverable(job, db.(frontier := None))
    ensures Complete(job, db.(frontier := None, state := None)) && stats == Target(job).stats
  {
    StampedIsRendered(job.Run(), job.base, db.tables, stats);
    assert Content(View(db.tables), stats) == Target(job);
  }

  datatype Error = AmbiguousRun | ForeignProgress

  /** Progress left behind by another source, parser or run. */
  ghost predicate Foreign(db: Database, me: Identity) {
    db.state.Some? && db.state.value.Some? && db.state.value.value.identity != me
  }

  /** At most the empty frontier table was created. */
  ghost predicate SameButFrontier(before: Database, after: Database) {
    after == before || (before.frontier.None? && after == before.(frontier := Some(map[])))
  }

  /** Batch ends passed while the count of processed inputs rises. */
  ghost function Batches(before: nat, after: nat, interval: nat): int
    requires interval > 0
  {
    after / interval - before / interval
  }

  /** Inputs the walk counts below a frontier: pending files, and directories. */
  ghost function Inputs(src: Source, fr: Frontier): nat
    requires src.Valid()
  {
    |Work(src, fr)| + |VisitOrder(src, fr)|
  }

  lemma InputsNext(src: Source, fr: Frontier)
    requires src.Valid() && fr != map[]
    ensures var d := Least(fr.Keys);
            Inputs(src, fr) == |Listing(Pending(src, d, fr[d]))| + 1 + Inputs(src, Advance(src, fr))
  {
    AdvanceShrinks(src, fr);
    hide Pending, Advance, Least;
  }

  /** One more input ends a batch exactly when the count is a multiple. */
  lemma BatchEnd(processed: nat, interval: nat)
    requires interval > 0
    ensures Batches(processed, processed + 1, interval) == if (processed + 1) % interval == 0 then 1 else 0
  {
    var q, r := processed / interval, processed % interval;
    assert processed == q * interval + r;
    if r + 1 == interval {
      assert processed + 1 == (q + 1) * interval;
      Quotient(processed + 1, interval, q + 1, 0);
    } else {
      Quotient(processed + 1, interval, q, r + 1);
    }
  }

  lemma Quotient(n: int, d: int, q: int, r: int)
    requires 0 <= r < d && n == q * d + r
    ensures n / d == q && n % d == r
  {
    var k, m := n / d, n % d;
    assert k * d + m == q * d + r && (k - q) * d == r - m;
    assert k - q >= 1 ==> (k - q) * d >= d;
    assert k - q <= -1 ==> (k - q) * d <= -d;
  }

  /** From the start: one batch end for every whole interval of inputs. */
  lemma FromZero(after: nat, interval: nat)
    requires interval > 0
    ensures Batches(0, after, interval) == after / interval
  {
    Quotient(0, interval, 0, 0);
  }

  datatype Outcome = Finished(stats: Stats) | Crashed | Rejected(error: Error)

  /** The resumable file walk of one parser on one connection. */
  class IngestProgress {
    const conn: Connection
    const src: Source
    const parser: Parser
    const interval: nat
    const version: Option<Version>
    var stats: Stats
    var processed: nat
    var exhausted: bool
    var watermarks: map<string, nat>

    /** `run` is the single active version row, if there is one. */
    constructor (conn: Connection, src: Source, parser: Parser, stats: Stats, interval: nat)
      requires |conn.working.active| <= 1
      ensures this.conn == conn && this.src == src && this.parser == parser
      ensures this.interval == interval && this.stats == stats && processed == 0 && !exhausted
      ensures version == if |conn.working.active| == 1 then Some(conn.working.active[0]) else None
      ensures watermarks == Heights(conn.working.tables)
    {
      this.conn, this.src, this.parser, this.interval := conn, src, parser, interval;
      this.stats, processed, exhausted := stats, 0, false;
      version := if |conn.working.active| == 1 then Some(conn.working.active[0]) else None;
      watermarks := Heights(conn.working.tables);
    }

    ghost predicate Owns(job: Job) {
      job.Valid() && src == job.src && parser == job.parser && version == job.Run() && interval > 0
    }

    ghost predicate InWalk(job: Job, work: seq<(Path, Name)>)
      reads this, conn
    {
      Owns(job) && Recoverable(job, conn.durable) && Walking(job, conn.working, stats, watermarks, work)
    }

    ghost function FrontierNow(): (fr: Frontier)
      reads conn
    {
      if conn.working.frontier.Some? then conn.working.frontier.value else map[]
    }

    function Me(): Identity {
      Identity(src.root, parser.name, if version.Some? then Some(version.value.runId) else None)
    }

    /** Ready to enter: a stranger's progress, or this job's. */
    ghost predicate AtDoor(job: Job)
      reads this, conn
    {
      !conn.inTransaction && conn.working == conn.durable &&
      (Foreign(conn.durable, Me()) ||
       (Owns(job) && stats == job.initial && watermarks == Heights(conn.working.tables) &&
        Recoverable(job, conn.durable)))
    }

    /** The two `CREATE TABLE IF NOT EXISTS`, each durable at once. */
    method CreateProgressTables(ghost job: Job) returns (alive: bool)
      requires AtDoor(job)
      modifies conn
      ensures AtDoor(job) && (Foreign(conn.durable, Me()) <==> Foreign(old(conn.durable), Me()))
      ensures Foreign(conn.durable, Me()) ==> SameButFrontier(old(conn.durable), conn.durable)
      ensures alive ==> conn.durable.state.Some? && conn.durable.frontier.Some?
      ensures alive && old(conn.durable).state.None? ==>
                conn.durable.state == Some(None) &&
                conn.steps == old(conn.steps) + if old(conn.durable).frontier.None? then 2 else 1
      ensures !alive ==> old(conn.budget).Some?
      ensures old(conn.budget).None? ==> conn.budget.None?
    {
      hide Recoverable, Job.Valid, Work, Source.Valid, AllStamped, Target;
      alive := true;
      if !Foreign(conn.durable, Me()) { CreateTables(job, conn.durable); }
      if conn.working.state.None? {
        alive := conn.ExecuteDdl(conn.working.(state := Some(None)));
        if !alive { return; }
      }
      if !Foreign(conn.durable, Me()) { CreateTables(job, conn.durable); }
      if conn.working.frontier.None? {
        alive := conn.ExecuteDdl(conn.working.(frontier := Some(map[])));
      }
    }

    /** `__enter__`: create the progress tables, then adopt or create the state. */
    method Enter(ghost job: Job) returns (alive: bool, accepted: bool)
      requires AtDoor(job)
      modifies this`stats, conn
      ensures alive ==> (accepted <==> !Foreign(old(conn.durable), Me()))
      ensures alive && accepted ==> Owns(job) && InWalk(job, Work(job.src, FrontierNow()))
      ensures alive && accepted ==> conn.working == conn.durable && !conn.inTransaction
      ensures alive && accepted && old(conn.durable).state.None? ==>
                conn.working.frontier == Some(START) &&
                conn.steps == old(conn.steps) + if old(conn.durable).frontier.None? then 3 else 2
      ensures Foreign(old(conn.durable), Me()) ==> SameButFrontier(old(conn.durable), conn.durable)
      ensures !alive && !Foreign(old(conn.durable), Me()) ==> Owns(job) && Recoverable(job, conn.durable)
      ensures !alive ==> old(conn.budget).Some?
      ensures old(conn.budget).None? ==> conn.budget.None?
    {
      hide Recoverable, Walking, Job.Valid, Work, Source.Valid, AllStamped, Target, SameButFrontier;
      accepted := true;
      alive := CreateProgressTables(job);
      if !alive { return; }
      var identity := Me();
      var state := conn.working.state.value;
      if state.Some? && state.value.identity != identity {
        alive, accepted := true, false;
        return;
      }
      if state.Some? {
        EnterResumed(job, conn.durable);
        stats := stats + state.value.stats;
      } else {
        EnterFresh(job, conn.durable);
        conn.Execute(conn.working.(state := Some(Some(StateRow(identity, stats)))));
        conn.Execute(conn.working.(frontier := Some(conn.working.frontier.value[[] := None])));
        assert conn.working.frontier == Some(START);
      }
      Publishable(job);
      alive := conn.Commit();
    }

    /** `__enter__` commits without stamping: it has added no rows. */
    lemma Publishable(job: Job)
      requires Owns(job) && conn.working.frontier.Some? && watermarks == Heights(conn.working.tables)
      requires Walking(job, conn.working, stats, watermarks, Work(job.src, FrontierNow()))
      requires conn.working.state.value.value.stats == stats
      ensures Recoverable(job, conn.working)
    {}

    /** `_commit`: stamp the new rows, save the statistics, publish, and move the
        watermarks up. */
    method Commit(ghost job: Job) returns (alive: bool)
      requires Owns(job) && InWalk(job, Work(job.src, FrontierNow()))
      modifies this`watermarks, conn
      ensures alive ==> Owns(job) && InWalk(job, Work(job.src, FrontierNow()))
      ensures alive ==> conn.working == conn.durable && !conn.inTransaction
      ensures alive ==> conn.working.frontier == old(conn.working.frontier) && conn.steps == old(conn.steps) + 1
      ensures alive ==> conn.working.state == Some(Some(StateRow(job.Owner(), stats)))
      ensures !alive ==> Recoverable(job, conn.durable) && old(conn.budget).Some?
      ensures old(conn.budget).None? ==> conn.budget.None?
    {
      assert conn.working.frontier.Some?;
      CommitStep(job, conn.working, stats, watermarks);
      hide Recoverable, Walking, Job.Valid, Work;
      conn.Execute(Sealed(version, conn.working, stats, watermarks));
      alive := conn.Commit();
      if alive { watermarks := Heights(conn.working.tables); }
    }

    /** One file, on behalf of the caller that iterates over the names. */
    method Extract(ghost job: Job, d: Path, f: Name, ghost rest: seq<(Path, Name)>)
      requires InWalk(job, [(d, f)] + rest)
      modifies this`stats, conn`working, conn`inTransaction
      ensures InWalk(job, rest)
      ensures conn.working.frontier == old(conn.working.frontier)
    {
      ExtractStep(job, conn.working, stats, watermarks, d, f, rest);
      hide Recoverable, Walking, Job.Valid;
      var (next, after) := Extracted(parser, conn.working, stats, d, f);
      conn.Execute(next);
      stats := after;
    }

    /** `_filenames`: ingest the files of `d`, saving the cursor at each batch end. */
    method Filenames(ghost job: Job, d: Path, names: seq<Name>, ghost fr: Frontier) returns (alive: bool)
      requires Owns(job) && fr != map[] && d == Least(fr.Keys)
      requires conn.working.frontier == Some(WithChildren(src, d, fr))
      requires names == Listing(Pending(src, d, fr[d]))
      requires InWalk(job, Tag(d, names) + Work(job.src, Advance(src, fr)))
      modifies this`stats, this`processed, this`watermarks, conn
      ensures alive ==> Owns(job) && InWalk(job, Work(job.src, Advance(src, fr)))
      ensures alive ==> conn.working.frontier.Some? && FrontierNow() - {d} == Advance(src, fr)
      ensures alive ==> processed == old(processed) + |names| &&
                        conn.steps == old(conn.steps) + Batches(old(processed), processed, interval)
      ensures !alive ==> Recoverable(job, conn.durable) && old(conn.budget).Some?
      ensures old(conn.budget).None? ==> conn.budget.None?
    {
      hide Recoverable, Walking, Job.Valid, Source.Valid, Work, WithChildren, Advance, Pending, Joined, Names, Child,
           Less, Tag, Least, Listing, Ahead;
      JobParts(job);
      ghost var rest := Work(job.src, Advance(src, fr));
      ghost var cursor := fr[d];
      SameCursor(src, fr, d);
      assert names[0..] == names;
      var k := 0;
      while k < |names|
        invariant k <= |names|
        invariant InWalk(job, Tag(d, names[k..]) + rest)
        invariant conn.working.frontier == Some(WithChildren(src, d, fr)[d := cursor])
        invariant names[k..] == Listing(Pending(src, d, if k == 0 then fr[d] else Some(names[k - 1])))
        invariant old(conn.budget).None? ==> conn.budget.None?
        invariant processed == old(processed) + k
        invariant conn.steps == old(conn.steps) + Batches(old(processed), processed, interval)
      {
        BatchEnd(processed, interval);
        TagNext(d, names, k, rest);
        PendingAfter(src, d, if k == 0 then fr[d] else Some(names[k - 1]), names[k..]);
        assert names[k..][1..] == names[k + 1..];
        Extract(job, d, names[k], Tag(d, names[k + 1..]) + rest);
        processed := processed + 1;
        if processed % interval == 0 {
          cursor := Some(names[k]);
          FrontierStep(job, conn.working, WithChildren(src, d, fr)[d := cursor], stats, watermarks,
                       Tag(d, names[k + 1..]) + rest);
          conn.Execute(conn.working.(frontier := Some(conn.working.frontier.value[d := Some(names[k])])));
          RescanWork(src, fr, d, cursor);
          assert conn.working.frontier.value == WithChildren(src, d, fr)[d := cursor];
          alive := Commit(job);
          if !alive { return; }
        }
        k := k + 1;
      }
      TagDone(d, names[k..], rest);
      CursorDropped(src, fr, d, cursor);
      alive := true;
    }

    /** The operating system lists a directory in an order of its own, which may
        differ from one scan to the next. */
    method Scandir(d: Path) returns (entries: seq<Entry>)
      ensures multiset(entries) == multiset(src.Scan(d))
    {
      entries := src.Scan(d);
    }

    /** Open one directory: subdirectories join the frontier, files past the
        cursor are listed in byte order. */
    method OpenDirectory(ghost job: Job, d: Path, ghost fr: Frontier) returns (names: seq<Name>)
      requires Owns(job) && InWalk(job, Work(job.src, fr)) && conn.working.frontier == Some(fr)
      requires d in fr
      modifies conn`working, conn`inTransaction
      ensures names == Listing(Pending(src, d, fr[d]))
      ensures conn.working.frontier == Some(WithChildren(src, d, fr))
      ensures Owns(job) && InWalk(job, Work(job.src, fr))
    {
      hide Recoverable, Walking, Job.Valid, Source.Valid, Work, WithChildren, Advance, Pending, Joined, Names, Child,
           Less, Tag, Least, Listing, Ahead;
      JobParts(job);
      FrontierStep(job, conn.working, WithChildren(src, d, fr), stats, watermarks, Work(job.src, fr));
      var cursor := conn.working.frontier.value[d];
      var entries := Scandir(d);
      ScanMembers(src, d, entries);
      var found: seq<Name> := [];
      JoinedNone(fr, d, cursor);
      for n := 0 to |entries|
        invariant conn.working.frontier.Some?
        invariant conn.working == old(conn.working).(frontier := conn.working.frontier)
        invariant conn.working.frontier == Some(Joined(fr, d, entries[..n]))
        invariant Elements(found) == Names(entries[..n], cursor)
        invariant forall i, j | 0 <= i < j < |found| :: found[i] != found[j]
      {
        var entry := entries[n];
        assert entries[..n + 1] == entries[..n] + [entry];
        JoinedNext(fr, d, entries[..n], entry);
        NamesNext(entries[..n], entry, cursor);
        if entry.kind.Directory? {
          var child := Child(d, entry.name);
          if child !in conn.working.frontier.value {
            conn.Execute(conn.working.(frontier := Some(conn.working.frontier.value[child := None])));
          }
        } else if entry.kind.File? && (cursor.None? || Less(cursor.value, entry.name)) {
          NewName(entries, n, cursor);
          forall i | 0 <= i < |found| ensures found[i] != entry.name {
            assert found[i] in Elements(found);
          }
          AppendElements(found, entry.name);
          found := found + [entry.name];
        }
      }
      assert entries[..|entries|] == entries;
      JoinedAll(src, fr, d, entries, cursor);
      names := Sorted(found);
    }

    /** `walk`: take the least pending directory, ingest it, until none is left. */
    method Walk(ghost job: Job) returns (alive: bool)
      requires Owns(job) && InWalk(job, Work(job.src, FrontierNow()))
      modifies this, conn
      ensures alive ==> exhausted && InWalk(job, []) && conn.working.frontier == Some(map[])
      ensures alive ==> processed == old(processed) + Inputs(src, old(FrontierNow())) &&
                        conn.steps == old(conn.steps) + Batches(old(processed), processed, interval)
      ensures !alive ==> Owns(job) && Recoverable(job, conn.durable) && old(conn.budget).Some?
      ensures old(conn.budget).None? ==> conn.budget.None?
    {
      hide Recoverable, Walking, Job.Valid, Source.Valid, Work, WithChildren, Advance, Pending, Joined, Names, Child,
           Less, Tag, Least, Listing, Ahead;
      JobParts(job);
      while true
        invariant Owns(job) && InWalk(job, Work(job.src, FrontierNow()))
        invariant old(conn.budget).None? ==> conn.budget.None?
        invariant processed + Inputs(src, FrontierNow()) == old(processed) + Inputs(src, old(FrontierNow()))
        invariant conn.steps == old(conn.steps) + Batches(old(processed), processed, interval)
        decreases Ahead(src, FrontierNow().Keys)
      {
        WalkingFrontier(job, conn.working, stats, watermarks, Work(job.src, FrontierNow()));
        if conn.working.frontier.value == map[] {
          UnfoldWork(src, FrontierNow());
          assert VisitOrder(src, FrontierNow()) == [];
          exhausted := true;
          return true;
        }
        AdvanceShrinks(src, FrontierNow());
        InputsNext(src, FrontierNow());
        alive := FinishDirectory(job);
        if !alive { return; }
      }
    }

    /** One turn of the loop: the least pending directory, from open to delete. */
    method FinishDirectory(ghost job: Job) returns (alive: bool)
      requires Owns(job) && conn.working.frontier.Some? && FrontierNow() != map[]
      requires InWalk(job, Work(job.src, FrontierNow()))
      modifies this`stats, this`processed, this`watermarks, conn
      ensures alive ==> Owns(job) && conn.working.frontier == Some(Advance(src, old(FrontierNow())))
      ensures alive ==> InWalk(job, Work(job.src, FrontierNow()))
      ensures alive ==>
                var d := Least(old(FrontierNow()).Keys);
                processed == old(processed) + |Listing(Pending(src, d, old(FrontierNow())[d]))| + 1 &&
                conn.steps == old(conn.steps) + Batches(old(processed), processed, interval)
      ensures !alive ==> Owns(job) && Recoverable(job, conn.durable) && old(conn.budget).Some?
      ensures old(conn.budget).None? ==> conn.budget.None?
    {
      hide Recoverable, Walking, Job.Valid, Source.Valid, Work, WithChildren, Advance, Pending, Joined, Names, Child,
           Less, Tag, Least, Listing, Ahead;
      JobParts(job);
      ghost var fr := FrontierNow();
      UnfoldWork(src, fr);
      var d := SelectFirst();
      var names := OpenDirectory(job, d, fr);
      alive := Filenames(job, d, names, fr);
      if !alive { return; }
      FrontierStep(job, conn.working, Advance(src, fr), stats, watermarks, Work(job.src, Advance(src, fr)));
      conn.Execute(conn.working.(frontier := Some(conn.working.frontier.value - {d})));
      BatchEnd(processed, interval);
      processed := processed + 1;
      if processed % interval == 0 { alive := Commit(job); }
    }

    /** `SELECT directory ... ORDER BY directory LIMIT 1`. */
    method SelectFirst() returns (d: Path)
      requires conn.working.frontier.Some? && conn.working.frontier.value != map[]
      ensures d == Least(conn.working.frontier.value.Keys)
    {
      var keys := conn.working.frontier.value.Keys;
      d :| d in keys;
      var rest := keys;
      while rest != {}
        invariant rest <= keys && d in keys
        invariant forall x | x in keys - rest :: x == d || Less(d, x)
        decreases rest
      {
        var x :| x in rest;
        LessTotal(x, d);
        if Less(x, d) {
          forall y | y in keys - rest ensures Less(x, y) {
            if y != d { LessTransitive(x, d, y); }
          }
          d := x;
        }
        rest := rest - {x};
      }
      assert IsLeast(d, keys);
      LeastUnique(d, Least(keys), keys);
    }

    /** `__exit__` after a full walk: a last commit, then two separately durable drops. */
    method Exit(ghost job: Job) returns (alive: bool)
      requires InWalk(job, []) && exhausted && conn.working.frontier == Some(map[])
      modifies this`watermarks, conn
      ensures alive ==> job.Valid() && Complete(job, conn.durable) && stats == Target(job).stats
      ensures alive ==> conn.steps == old(conn.steps) + 3
      ensures !alive ==> job.Valid() && Recoverable(job, conn.durable) && old(conn.budget).Some?
      ensures old(conn.budget).None? ==> conn.budget.None?
    {
      assert Work(job.src, FrontierNow()) == [];
      hide Recoverable, Walking, Job.Valid, Work, Complete;
      alive := Commit(job);
      if !alive { return; }
      DropStep(job, conn.durable, stats);
      alive := conn.ExecuteDdl(conn.working.(frontier := None));
      if !alive { return; }
      alive := conn.ExecuteDdl(conn.working.(state := None));
      if !alive { return; }
    }
  }

  /** The body of the `with` block, and leaving it. */
  method Through(progress: IngestProgress, ghost job: Job) returns (alive: bool)
    requires progress.Owns(job) && progress.InWalk(job, Work(job.src, progress.FrontierNow()))
    modifies progress, progress.conn
    ensures var conn := progress.conn;
            (alive ==> Complete(job, conn.durable) && progress.stats == Target(job).stats) &&
            (alive ==> conn.steps == old(conn.steps) + 3 +
                       Batches(old(progress.processed),
                               old(progress.processed) + Inputs(job.src, old(progress.FrontierNow())),
                               progress.interval)) &&
            (!alive ==> Recoverable(job, conn.durable) && old(conn.budget).Some?) &&
            (old(conn.budget).None? ==> conn.budget.None?)
  {
    hide Recoverable, Walking, Work, Complete, Job.Valid, Source.Valid, Inputs, Batches, Target;
    JobParts(job);
    alive := progress.Walk(job);
    if !alive { return; }
    alive := progress.Exit(job);
  }

  /** A job that is not refused for its run knows the image's run. */
  lemma JobOf(job: Job, db: Database)
    requires job.Valid() && db.active == job.active
    ensures |db.active| <= 1 && job.Run() == if |db.active| == 1 then Some(db.active[0]) else None
    ensures job.src.Valid()
  {}

  lemma JobParts(job: Job)
    requires job.Valid()
    ensures job.src.Valid()
  {}

  lemma WalkingFrontier(job: Job, db: Database, stats: Stats, marks: map<string, nat>, work: seq<(Path, Name)>)
    requires job.Valid() && Walking(job, db, stats, marks, work)
    ensures db.frontier.Some?
  {}

  lemma UnfoldWork(src: Source, fr: Frontier)
    requires src.Valid()
    ensures fr == map[] ==> Work(src, fr) == []
    ensures fr != map[] ==>
              Work(src, fr) == Tag(Least(fr.Keys), Listing(Pending(src, Least(fr.Keys), fr[Least(fr.Keys)]))) +
              Work(src, Advance(src, fr))
  {}

  lemma SameCursor(src: Source, fr: Frontier, d: Path)
    requires fr != map[] && d == Least(fr.Keys)
    ensures WithChildren(src, d, fr)[d := fr[d]] == WithChildren(src, d, fr)
  {}

  lemma CursorDropped(src: Source, fr: Frontier, d: Path, cursor: Option<Name>)
    requires fr != map[] && d == Least(fr.Keys)
    ensures WithChildren(src, d, fr)[d := cursor] - {d} == Advance(src, fr)
  {}

  lemma TagNext(d: Path, names: seq<Name>, k: nat, rest: seq<(Path, Name)>)
    requires k < |names|
    ensures Tag(d, names[k..]) + rest == [(d, names[k])] + (Tag(d, names[k + 1..]) + rest)
  {}

  lemma TagDone(d: Path, names: seq<Name>, rest: seq<(Path, Name)>)
    requires names == []
    ensures Tag(d, names) + rest == rest
  {}

  // ---- One directory scan ----

  ghost function Children(d: Path, entries: seq<Entry>): set<Path> {
    set e | e in entries && e.kind.Directory? :: Child(d, e.name)
  }

  ghost function Joined(fr: Frontier, d: Path, entries: seq<Entry>): Frontier {
    fr + map c | c in Children(d, entries) - fr.Keys :: None
  }

  ghost function Names(entries: seq<Entry>, cursor: Option<Name>): set<Name> {
    set e | e in entries && e.kind.File? && (cursor.None? || Less(cursor.value, e.name)) :: e.name
  }

  lemma JoinedNone(fr: Frontier, d: Path, cursor: Option<Name>)
    ensures Joined(fr, d, []) == fr && Names([], cursor) == {}
  {}

  lemma JoinedNext(fr: Frontier, d: Path, entries: seq<Entry>, e: Entry)
    ensures Joined(fr, d, entries + [e]) ==
            if e.kind.Directory? && Child(d, e.name) !in Joined(fr, d, entries)
            then Joined(fr, d, entries)[Child(d, e.name) := None] else Joined(fr, d, entries)
  {
    var c := Child(d, e.name);
    ChildrenNext(d, entries, e);
    hide Children, Child;
    AddChildren(fr, Children(d, entries), c);
  }

  lemma ChildrenNext(d: Path, entries: seq<Entry>, e: Entry)
    ensures Children(d, entries + [e]) == Children(d, entries) + if e.kind.Directory? then {Child(d, e.name)} else {}
  {
    hide Child;
    forall c ensures c in Children(d, entries + [e]) <==>
                     c in Children(d, entries) || (e.kind.Directory? && c == Child(d, e.name))
    {
      if c in Children(d, entries + [e]) {
        var x :| x in entries + [e] && x.kind.Directory? && c == Child(d, x.name);
        assert x in entries || x == e;
      }
      if c in Children(d, entries) {
        var x :| x in entries && x.kind.Directory? && c == Child(d, x.name);
        assert x in entries + [e];
      }
      assert e in entries + [e];
    }
  }

  lemma AddChildren(fr: Frontier, before: set<Path>, c: Path)
    ensures var joined := fr + map x | x in before - fr.Keys :: None;
            (fr + map x | x in before + {c} - fr.Keys :: None) == if c in joined then joined else joined[c := None]
  {}

  lemma NamesNext(entries: seq<Entry>, e: Entry, cursor: Option<Name>)
    ensures Names(entries + [e], cursor) ==
            Names(entries, cursor) +
            if e.kind.File? && (cursor.None? || Less(cursor.value, e.name)) then {e.name} else {}
  {
    hide Less;
    assert forall x :: x in entries + [e] <==> x in entries || x == e;
  }

  lemma NewName(entries: seq<Entry>, n: nat, cursor: Option<Name>)
    requires n < |entries|
    requires forall i, j | 0 <= i < j < |entries| :: entries[i].name != entries[j].name
    ensures entries[n].name !in Names(entries[..n], cursor)
  {
    forall e | e in entries[..n] ensures e.name != entries[n].name {
      var i :| 0 <= i < n && entries[i] == e;
    }
  }

  lemma JoinedAll(src: Source, fr: Frontier, d: Path, entries: seq<Entry>, cursor: Option<Name>)
    requires forall e :: e in entries <==> e in src.Scan(d)
    ensures Joined(fr, d, entries) == WithChildren(src, d, fr)
    ensures Names(entries, cursor) == Pending(src, d, cursor)
  {
    assert Children(d, entries) == src.Subdirs(d);
  }

  /** Any enumeration of a listing has the listing's entries, each name once. */
  lemma ScanMembers(src: Source, d: Path, entries: seq<Entry>)
    requires src.Valid() && multiset(entries) == multiset(src.Scan(d))
    ensures forall e :: e in entries <==> e in src.Scan(d)
    ensures forall i, j | 0 <= i < j < |entries| :: entries[i].name != entries[j].name
  {
    var scan := src.Scan(d);
    forall e ensures e in entries <==> e in scan {
      assert e in multiset(entries) <==> e in multiset(scan);
    }
    forall i, j | 0 <= i < j < |entries| ensures entries[i].name != entries[j].name {
      if entries[i].name == entries[j].name {
        assert entries[i] in scan && entries[j] in scan;
        assert entries[i] == entries[j];
        TwiceInMultiset(entries, i, j);
        var k :| 0 <= k < |scan| && scan[k] == entries[i];
        OnceInMultiset(scan, k);
        assert false;
      }
    }
  }

  lemma OnceInMultiset(q: seq<Entry>, k: nat)
    requires k < |q|
    requires forall i, j | 0 <= i < j < |q| :: q[i].name != q[j].name
    ensures multiset(q)[q[k]] == 1
  {
    assert q == q[..k] + [q[k]] + q[k + 1..];
    assert q[k] !in q[..k] && q[k] !in q[k + 1..];
  }

  // ---- Whole histories ----

  lemma NotForeign(job: Job, db: Database)
    requires job.Valid() && Recoverable(job, db)
    ensures db.active == job.active && !Foreign(db, job.Owner())
  {}

  /** A parser that adds one to a counter for every file it is given counts each
      reachable file once. */
  lemma CountsEachFileOnce(job: Job, key: string)
    requires job.Valid() && key in job.initial
    requires forall c: Content, d: Path, f: Name | key in c.stats ::
               key in job.parser.extract(c, d, f).stats && job.parser.extract(c, d, f).stats[key] == c.stats[key] + 1
    ensures key in Target(job).stats
    ensures Target(job).stats[key] == job.initial[key] + |Elements(Work(job.src, START))|
    ensures forall d, f ::
              (d, f) in Elements(Work(job.src, START)) <==> Reaches(job.src, [], d) && f in job.src.Files(d)
  {
    FullWalk(job.src);
    DistinctElements(Work(job.src, START));
    CountSteps(job.parser, Content(View(job.base), job.initial), Work(job.src, START), key);
  }

  lemma {:induction false} CountSteps(parser: Parser, c: Content, work: seq<(Path, Name)>, key: string)
    requires key in c.stats
    requires forall c: Content, d: Path, f: Name | key in c.stats ::
               key in parser.extract(c, d, f).stats && parser.extract(c, d, f).stats[key] == c.stats[key] + 1
    ensures key in Ingested(parser, c, work).stats
    ensures Ingested(parser, c, work).stats[key] == c.stats[key] + |work|
    decreases |work|
  {
    if work != [] { CountSteps(parser, parser.extract(c, work[0].0, work[0].1), work[1..], key); }
  }

  /** One attempt: open, enter, walk, exit, dying wherever the budget runs out.
      An ambiguous run or another ingest's progress is refused, and preserved. */
  method Attempt(conn: Connection, ghost job: Job, src: Source, parser: Parser, initial: Stats, interval: nat)
    returns (outcome: Outcome)
    requires job.src == src && job.parser == parser && job.initial == initial
    requires job.Valid() && interval > 0 && !conn.inTransaction && conn.working == conn.durable
    requires |conn.durable.active| <= 1 ==>
               conn.durable.active == job.active &&
               (Foreign(conn.durable, job.Owner()) || Recoverable(job, conn.durable))
    modifies conn
    ensures outcome == Rejected(AmbiguousRun) <==> |old(conn.durable).active| > 1
    ensures outcome == Rejected(ForeignProgress) ==> Foreign(old(conn.durable), job.Owner())
    ensures |old(conn.durable).active| <= 1 && Foreign(old(conn.durable), job.Owner()) ==>
              outcome == Rejected(ForeignProgress) || outcome.Crashed?
    ensures |old(conn.durable).active| <= 1 && !Foreign(old(conn.durable), job.Owner()) ==> !outcome.Rejected?
    ensures outcome.Rejected? ==> SameButFrontier(old(conn.durable), conn.durable)
    ensures outcome.Finished? ==> Complete(job, conn.durable) && outcome.stats == Target(job).stats
    ensures outcome.Finished? && old(conn.durable).state.None? && old(conn.durable).frontier.None? ==>
              conn.steps == old(conn.steps) + 6 + Batches(0, Inputs(src, START), interval)
    ensures outcome.Crashed? ==> old(conn.budget).Some?
    ensures old(conn.budget).None? ==> conn.budget.None?
    ensures outcome.Crashed? && !Foreign(old(conn.durable), job.Owner()) ==> Recoverable(job, conn.durable)
  {
    hide Walking, Work, Complete, Job.Valid, Source.Valid, Inputs, Batches, Target;
    if |conn.working.active| > 1 { return Rejected(AmbiguousRun); }
    var progress := new IngestProgress(conn, src, parser, initial, interval);
    JobOf(job, conn.durable);
    var alive, accepted := progress.Enter(job);
    if !alive { return Crashed; }
    if !accepted { return Rejected(ForeignProgress); }
    alive := Through(progress, job);
    if !alive { return Crashed; }
    return Finished(progress.stats);
  }

  /** Any history of attempts, each with its own batch interval and its own
      point of death, followed by one that is left alone: the rows, their
      provenance and the statistics are those of one uninterrupted walk. */
  method IngestThroughCrashes(image: Database, src: Source, parser: Parser, initial: Stats, history: seq<(nat, nat)>)
    returns (final: Database, stats: Stats)
    requires src.Valid() && parser.Valid() && |image.active| <= 1
    requires image.state.None? && image.frontier.None?
    requires forall h | h in history :: h.0 > 0
    ensures var job := Job(src, parser, image.tables, image.active, initial);
            Complete(job, final) && stats == Target(job).stats
  {
    ghost var job := Job(src, parser, image.tables, image.active, initial);
    var disk := image;
    forall t | t in job.base ensures Stamped(job.Run(), job.base[t], |image.tables[t]|, image.tables[t]) {}
    for n := 0 to |history|
      invariant Recoverable(job, disk)
    {
      var conn := new Connection(disk, Some(history[n].1));
      NotForeign(job, disk);
      var outcome := Attempt(conn, job, src, parser, initial, history[n].0);
      disk := conn.durable;
      if outcome.Finished? { return disk, outcome.stats; }
    }
    var conn := new Connection(disk, None);
    NotForeign(job, disk);
    var outcome := Attempt(conn, job, src, parser, initial, 50_000);
    return conn.durable, outcome.stats;
  }

  // ---- Under the pipeline's phase checkpoint ----

  ghost predicate Extends(rows: map<string, seq<int>>, later: map<string, seq<int>>) {
    rows.Keys == later.Keys && forall t | t in rows :: rows[t] <= later[t]
  }

  /** A parser that looks before it inserts: a file whose rows are there adds none. */
  ghost predicate InsertsOnce(parser: Parser) {
    forall c: Content, d: Path, f: Name, again: Content | Extends(parser.extract(c, d, f).rows, again.rows) ::
      parser.extract(again, d, f).rows == again.rows
  }

  /** Ingesting the same work again, after whatever else was ingested. */
  lemma {:induction false} Redone(parser: Parser, c: Content, work: seq<(Path, Name)>, again: Content)
    requires parser.Valid() && InsertsOnce(parser) && Extends(Ingested(parser, c, work).rows, again.rows)
    ensures Ingested(parser, again, work).rows == again.rows
    decreases |work|
  {
    if work != [] {
      var (d, f) := work[0];
      var once, twice := parser.extract(c, d, f), parser.extract(again, d, f);
      IngestedGrows(parser, once, work[1..]);
      ExtendsThrough(once.rows, Ingested(parser, once, work[1..]).rows, again.rows);
      Redone(parser, once, work[1..], twice);
    }
  }

  lemma ExtendsThrough(a: map<string, seq<int>>, b: map<string, seq<int>>, c: map<string, seq<int>>)
    requires Extends(a, b) && Extends(b, c)
    ensures Extends(a, c)
  {
    forall t | t in a ensures a[t] <= c[t] { assert a[t] <= b[t] <= c[t]; }
  }

  /** The rows a finished ingest leaves are exactly the target's. */
  lemma RenderedView(version: Option<Version>, base: Tables, c: Content)
    requires c.rows.Keys == base.Keys && forall t | t in base :: View(base)[t] <= c.rows[t]
    ensures View(Rendered(version, base, c)) == c.rows
  {
    var tables := Rendered(version, base, c);
    forall t | t in base ensures Data(tables[t]) == c.rows[t] {
      assert View(base)[t] == Data(base[t]);
      assert c.rows[t] == Data(base[t]) + c.rows[t][|base[t]|..];
    }
  }

  /** Nothing new: nothing rendered. */
  lemma RenderedSame(version: Option<Version>, base: Tables, c: Content)
    requires c.rows == View(base)
    ensures Rendered(version, base, c) == base
  {
    var tables := Rendered(version, base, c);
    forall t | t in base ensures tables[t] == base[t] {
      assert c.rows[t][|base[t]|..] == [];
    }
  }

  /** The phase runs again over the database it already completed: that is a
      recoverable state of the repeated ingest, whose result is no different. */
  lemma Repeated(job: Job, db: Database)
    requires job.Valid() && InsertsOnce(job.parser) && Complete(job, db)
    ensures var again := job.(base := db.tables);
            again.Valid() && Recoverable(again, db) && forall done | Complete(again, done) :: done == db
  {
    var again, target := job.(base := db.tables), Target(job);
    var start, work := Content(View(job.base), job.initial), Work(job.src, START);
    IngestedGrows(job.parser, start, work);
    RenderedView(job.Run(), job.base, target);
    Redone(job.parser, start, work, Content(View(db.tables), job.initial));
    RenderedSame(job.Run(), db.tables, Target(again));
    forall t | t in again.base ensures Stamped(job.Run(), again.base[t], |db.tables[t]|, db.tables[t]) {}
  }

  /** A state the phase can be taken up in: somewhere in its ingest, or somewhere
      in a repetition of it over the finished one. */
  ghost predicate Midway(job: Job, db: Database)
    requires job.Valid()
  {
    Recoverable(job, db) || exists done :: Complete(job, done) && Recoverable(job.(base := done.tables), db)
  }

  /** The phase in one process: it is recorded as running, ingests, and is
      recorded as complete. A death after the ingest and before that record
      leaves the phase to run again over a finished ingest. */
  method RunPhase(conn: Connection, ghost job: Job, src: Source, parser: Parser, initial: Stats, interval: nat)
    returns (complete: bool)
    requires job.src == src && job.parser == parser && job.initial == initial
    requires job.Valid() && InsertsOnce(parser) && interval > 0 && !conn.inTransaction && conn.working == conn.durable
    requires Midway(job, conn.durable)
    modifies conn
    ensures if complete then Complete(job, conn.durable) else Midway(job, conn.durable) && old(conn.budget).Some?
  {
    hide Recoverable, Complete, InsertsOnce;
    ghost var current, start := job, conn.durable;
    if !Recoverable(job, start) {
      ghost var done :| Complete(job, done) && Recoverable(job.(base := done.tables), start);
      current := job.(base := done.tables);
      Repeated(job, done);
    }
    var alive := conn.Spend();
    if !alive { return false; }
    NotForeign(current, conn.durable);
    var outcome := Attempt(conn, current, src, parser, initial, interval);
    if outcome.Crashed? { return false; }
    Repeated(job, conn.durable);
    alive := conn.Spend();
    return alive;
  }

  /** Whatever the points of death, the rows and stamps are those of one
      uninterrupted walk, although the phase may have run over them again. */
  method PhaseThroughCrashes(image: Database, src: Source, parser: Parser, initial: Stats, history: seq<(nat, nat)>)
    returns (final: Database)
    requires src.Valid() && parser.Valid() && InsertsOnce(parser) && |image.active| <= 1
    requires image.state.None? && image.frontier.None?
    requires forall h | h in history :: h.0 > 0
    ensures Complete(Job(src, parser, image.tables, image.active, initial), final)
  {
    hide Complete, InsertsOnce;
    ghost var job := Job(src, parser, image.tables, image.active, initial);
    forall t | t in job.base ensures Stamped(job.Run(), job.base[t], |image.tables[t]|, image.tables[t]) {}
    var disk, complete := image, false;
    assert Recoverable(job, disk);
    hide Recoverable;
    for n := 0 to |history|
      invariant if complete then Complete(job, disk) else Midway(job, disk)
    {
      if !complete {
        var conn := new Connection(disk, Some(history[n].1));
        complete := RunPhase(conn, job, src, parser, initial, history[n].0);
        disk := conn.durable;
      }
    }
    if complete { return disk; }
    var conn := new Connection(disk, None);
    complete := RunPhase(conn, job, src, parser, initial, 50_000);
    return conn.durable;
  }
}
