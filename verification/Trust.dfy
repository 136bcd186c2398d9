/** The sanitizer's marker and the content it vouches for: guarded SQL
    statements, resolver mutations and atomization on one SQLite connection,
    with savepoints to any depth and a failure possible at every statement. */
module Trust {
  import opened Wrappers

  /** The content of every table but the trust metadata, as one opaque value. */
  type Content = int

  /** A database image. `evidence` is the content the recorded trust evidence was
      published for; it can be read only while the metadata table is there under
      its own name. */
  datatype Image = Image(content: Content, evidence: Option<Content>, metadata: bool) {
    function Revoked(): Image { if metadata then this.(evidence := None) else this }
  }

  /** No readable evidence for content that has changed since. */
  predicate Honest(i: Image) {
    i.metadata && i.evidence.Some? ==> i.evidence.value == i.content
  }

  type HonestImage = i: Image | Honest(i) witness Image(0, None, true)

  /** One SQL statement: it finishes and reports how many rows it changed; it
      fails and leaves an arbitrary image (OR FAIL keeps what it did so far); or
      it fails after the engine itself rolled the transaction back. */
  datatype Step = Finished(image: Image, rows: nat) | Stopped(image: Image) | RolledBack

  type Sql = Image -> Step

  /** A statement that only touches content, as the resolver's and the
      atomizer's do. */
  datatype Written = Wrote(content: Content, rows: nat) | Partly(content: Content) | Lost

  type Write = Content -> Written

  function AsSql(w: Write): Sql {
    (i: Image) => match w(i.content)
         case Wrote(c, rows) => Finished(i.(content := c), rows)
         case Partly(c) => Stopped(i.(content := c))
         case Lost => RolledBack
  }

  lemma AsSqlStep(w: Write, i: Image)
    ensures AsSql(w)(i) ==
              match w(i.content)
              case Wrote(c, rows) => Finished(i.(content := c), rows)
              case Partly(c) => Stopped(i.(content := c))
              case Lost => RolledBack
  {}

  /** No row changed, nothing changed. */
  ghost predicate Counts(w: Write) {
    forall c :: w(c).Wrote? && w(c).rows == 0 ==> w(c).content == c
  }

  /** `invalidate_sanitization`: it needs the metadata table, removes the
      evidence and nothing else, and otherwise fails. */
  ghost predicate Revokes(revoke: Sql) {
    forall i :: match revoke(i)
                case Finished(j, _) => i.metadata && j == i.Revoked()
                case Stopped(j) => j == i || j == i.Revoked()
                case RolledBack => true
  }

  /** Everything a connection holds. */
  datatype State = State(durable: Image, working: Image, inTransaction: bool, savepoints: seq<Image>) {
    /** What a crash, a close or a rollback leaves. */
    function Discarded(): State { State(durable, durable, false, []) }
    function Committed(): State { State(working, working, false, []) }

    ghost predicate Valid() { !inTransaction ==> this == Discarded() }

    /** No image a commit, a rollback or a crash can bring back is stale. */
    ghost predicate AllHonest() {
      Valid() && Honest(durable) && Honest(working) && forall k | 0 <= k < |savepoints| :: Honest(savepoints[k])
    }
  }

  // ---- The connection ----

  /** The durable image is honest by its type: at no moment, inside an operation
      or between two, does the file hold stale evidence. */
  class Connection {
    var durable: HonestImage
    var working: Image
    var inTransaction: bool
    var savepoints: seq<Image>
    var totalChanges: nat

    constructor (image: HonestImage)
      ensures Now() == State(image, image, false, []) && totalChanges == 0
    {
      durable, working, inTransaction, savepoints, totalChanges := image, image, false, [], 0;
    }

    function Now(): State
      reads this
    {
      State(durable, working, inTransaction, savepoints)
    }

    method Begin()
      requires !inTransaction && Now().Valid()
      modifies this
      ensures Now() == old(Now()).(inTransaction := true) && totalChanges == old(totalChanges)
    {
      inTransaction := true;
    }

    method Savepoint()
      requires inTransaction
      modifies this
      ensures Now() == old(Now()).(savepoints := old(savepoints) + [working]) && totalChanges == old(totalChanges)
    {
      savepoints := savepoints + [working];
    }

    /** `ROLLBACK TO` the innermost savepoint, which stays open. */
    method RollbackTo()
      requires inTransaction && savepoints != []
      modifies this
      ensures Now() == old(Now()).(working := old(savepoints)[|old(savepoints)| - 1]) &&
              totalChanges == old(totalChanges)
    {
      working := savepoints[|savepoints| - 1];
    }

    method Release()
      requires inTransaction && savepoints != []
      modifies this
      ensures Now() == old(Now()).(savepoints := old(savepoints)[..|old(savepoints)| - 1]) &&
              totalChanges == old(totalChanges)
    {
      savepoints := savepoints[..|savepoints| - 1];
    }

    /** The one way a working image becomes durable. */
    method Commit()
      requires Honest(working)
      modifies this
      ensures Now() == old(Now()).Committed() && totalChanges == old(totalChanges)
    {
      durable, inTransaction, savepoints := working, false, [];
    }

    method Rollback()
      modifies this
      ensures Now() == old(Now()).Discarded() && totalChanges == old(totalChanges)
    {
      working, inTransaction, savepoints := durable, false, [];
    }

    method Execute(sql: Sql) returns (ok: bool)
      requires inTransaction
      modifies this
      ensures match sql(old(working))
              case Finished(i, rows) => ok && Now() == old(Now()).(working := i) &&
                                        totalChanges == old(totalChanges) + rows
              case Stopped(i) => !ok && Now() == old(Now()).(working := i) && totalChanges == old(totalChanges)
              case RolledBack => !ok && Now() == old(Now()).Discarded() && totalChanges == old(totalChanges)
    {
      match sql(working)
      case Finished(i, rows) =>
        working, totalChanges := i, totalChanges + rows;
        return true;
      case Stopped(i) =>
        working := i;
        return false;
      case RolledBack =>
        working, inTransaction, savepoints := durable, false, [];
        return false;
    }
  }

  // ---- Guarded statements ----

  /** A statement under the guard: `writes` is what the authorizer saw, which
      covers every statement that changes anything. */
  datatype Statement = Statement(sql: Sql, writes: bool) {
    ghost predicate Valid() {
      !writes ==> forall i :: sql(i).Finished? ==> sql(i).image == i
    }
  }

  /** How a guarded statement ends, seen from outside. */
  datatype Ending = Applied(image: Image) | Undone | EngineRolledBack

  function Guarded(s: Statement, revoke: Sql, image: Image): Ending {
    match s.sql(image)
    case Stopped(_) => Undone
    case RolledBack => EngineRolledBack
    case Finished(after, _) =>
      if !s.writes || !after.metadata then Applied(after)
      else match revoke(after)
           case Finished(clean, _) => Applied(clean)
           case Stopped(_) => Undone
           case RolledBack => EngineRolledBack
  }

  /** The simple meaning: all of it, or nothing, or (the engine's doing) the
      whole transaction gone. A read keeps no transaction of its own. */
  function AfterGuarded(before: State, s: Statement, revoke: Sql): State {
    match Guarded(s, revoke, before.working)
    case Applied(image) => if s.writes then before.(working := image, inTransaction := true) else before
    case Undone => before
    case EngineRolledBack => before.Discarded()
  }

  class IcarusQuery {
    const conn: Connection
    var writePending: bool
    var statementWrites: bool

    constructor (conn: Connection)
      ensures this.conn == conn && !writePending
    {
      this.conn := conn;
      writePending, statementWrites := false, false;
    }

    /** `_execute_writable_statement`. `locks`: BEGIN IMMEDIATE gets the lock. */
    method Execute(s: Statement, revoke: Sql, locks: bool) returns (ok: bool)
      requires s.Valid() && Revokes(revoke) && conn.Now().Valid()
      modifies this, conn
      ensures locks || old(conn.inTransaction) ==>
                (ok <==> Guarded(s, revoke, old(conn.working)).Applied?) &&
                conn.Now() == AfterGuarded(old(conn.Now()), s, revoke)
      ensures !locks && !old(conn.inTransaction) ==> !ok && conn.Now() == old(conn.Now())
      ensures writePending <==>
                (ok && s.writes) || (old(writePending) && old(conn.inTransaction) && conn.inTransaction)
    {
      hide Revokes, Statement.Valid, Guarded;
      var owned := !conn.inTransaction;
      if owned {
        writePending := false;
        if !locks { return false; }
        conn.Begin();
      }
      ReadKeeps(s, revoke, conn.working);
      ok := Guard(s, revoke);
      if ok {
        if statementWrites {
          writePending := true;
        } else if owned {
          conn.Rollback();
        }
      } else {
        if conn.inTransaction && owned { conn.Rollback(); }
        if !conn.inTransaction { writePending := false; }
      }
    }

    /** The statement and its revocation under one savepoint. */
    method Guard(s: Statement, revoke: Sql) returns (ok: bool)
      requires conn.inTransaction
      modifies this`statementWrites, conn
      ensures statementWrites == s.writes
      ensures ok <==> Guarded(s, revoke, old(conn.working)).Applied?
      ensures match Guarded(s, revoke, old(conn.working))
              case Applied(image) => conn.Now() == old(conn.Now()).(working := image)
              case Undone => conn.Now() == old(conn.Now())
              case EngineRolledBack => conn.Now() == old(conn.Now()).Discarded()
    {
      conn.Savepoint();
      statementWrites := s.writes;
      ok := conn.Execute(s.sql);
      if ok && statementWrites && conn.working.metadata {
        ok := conn.Execute(revoke);
      }
      if ok {
        conn.Release();
      } else if conn.inTransaction {
        conn.RollbackTo();
        conn.Release();
      }
    }

    /** Whether `commit` revokes once more before publishing. */
    predicate RevokesFirst()
      reads this, conn
    {
      writePending && conn.inTransaction && conn.working.metadata
    }

    /** `commit`: any pending write's revocation is repeated before publishing.
        `commits`: the engine's commit gets through. A failure costs the pending
        writes exactly when that revocation made the engine roll back. */
    method Commit(revoke: Sql, commits: bool) returns (ok: bool)
      requires Revokes(revoke) && conn.Now().AllHonest()
      modifies this, conn
      ensures conn.Now().AllHonest()
      ensures ok <==> (old(RevokesFirst()) ==> revoke(old(conn.working)).Finished?) && commits
      ensures ok ==> !writePending && conn.Now() == conn.Now().Discarded()
      ensures ok ==> (conn.durable ==
                if old(writePending) && old(conn.inTransaction) then old(conn.working).Revoked() else old(conn.working))
      ensures !ok ==> writePending == old(writePending)
      ensures !ok ==> (conn.Now() ==
                if !old(RevokesFirst()) then old(conn.Now())
                else if revoke(old(conn.working)).RolledBack? then old(conn.Now()).Discarded()
                else old(conn.Now()).(working := revoke(old(conn.working)).image))
    {
      if writePending && conn.inTransaction && conn.working.metadata {
        ok := conn.Execute(revoke);
        if !ok { return; }
      }
      if !commits { return false; }
      conn.Commit();
      writePending := false;
      return true;
    }

    method Rollback()
      modifies this, conn
      ensures conn.Now() == old(conn.Now()).Discarded() && !writePending
    {
      conn.Rollback();
      writePending := false;
    }
  }

  lemma ReadKeeps(s: Statement, revoke: Sql, image: Image)
    requires s.Valid()
    ensures !s.writes && Guarded(s, revoke, image).Applied? ==> Guarded(s, revoke, image).image == image
  {}

  /** A guarded statement keeps every image honest, however it ends. */
  lemma GuardedHonest(before: State, s: Statement, revoke: Sql)
    requires before.AllHonest() && s.Valid() && Revokes(revoke)
    ensures AfterGuarded(before, s, revoke).AllHonest()
    ensures Guarded(s, revoke, before.working).Applied? && s.writes ==>
              var i := Guarded(s, revoke, before.working).image; !i.metadata || i.evidence.None?
  {
  }

  /** A step of the statement, or of its revocation, that the engine answers by
      rolling the whole transaction back. */
  predicate HitsRollback(s: Statement, revoke: Sql, image: Image) {
    var step := s.sql(image);
    step.RolledBack? || (step.Finished? && s.writes && step.image.metadata && revoke(step.image).RolledBack?)
  }

  /** A step that fails and leaves the transaction open. */
  predicate HitsStop(s: Statement, revoke: Sql, image: Image) {
    var step := s.sql(image);
    step.Stopped? || (step.Finished? && s.writes && step.image.metadata && revoke(step.image).Stopped?)
  }

  /** When a guarded statement fails, and exactly when its failure costs the caller
      the earlier pending writes, by the steps it takes. */
  lemma PendingKeptIff(before: State, s: Statement, revoke: Sql)
    requires before.Valid() && before.inTransaction
    ensures Guarded(s, revoke, before.working).Applied? <==>
              !HitsStop(s, revoke, before.working) && !HitsRollback(s, revoke, before.working)
    ensures AfterGuarded(before, s, revoke).inTransaction <==> !HitsRollback(s, revoke, before.working)
    ensures HitsStop(s, revoke, before.working) ==> AfterGuarded(before, s, revoke) == before
    ensures HitsRollback(s, revoke, before.working) ==> AfterGuarded(before, s, revoke) == before.Discarded()
  {
  }

  /** A statement that fails with OR ROLLBACK after a pending guarded write: the
      write is gone, and the transaction with it. */
  lemma PendingLost()
    ensures var before := State(Image(0, None, true), Image(1, None, true), true, []);
            var s := Statement(i => RolledBack, true);
            before.AllHonest() && s.Valid() && AfterGuarded(before, s, i => Finished(i, 0)).working.content == 0
  {
  }

  // ---- Resolver mutations ----

  /** A mutating method: its lock, and a body of statements and nested mutating
      calls. An exception anywhere propagates through every enclosing call. */
  datatype Mutation = Mutation(locks: bool, body: Body)
  datatype Body = End | Run(write: Write, next: Body) | Call(inner: Mutation, next: Body)

  ghost predicate Counted(body: Body) {
    match body
    case End => true
    case Run(write, next) => Counts(write) && Counted(next)
    case Call(inner, next) => Counted(inner.body) && Counted(next)
  }

  /** How a body or a mutation ends on an image, in the simple semantics. */
  datatype Ran = Kept(image: Image, rows: nat) | Raised | Abandoned

  function RunBody(body: Body, revoke: Sql, image: Image): Ran
    decreases body
  {
    match body
    case End => Kept(image, 0)
    case Run(write, next) =>
      (match write(image.content)
       case Wrote(c, rows) => After(rows, RunBody(next, revoke, image.(content := c)))
       case Partly(_) => Raised
       case Lost => Abandoned)
    case Call(inner, next) =>
      match RunMutation(inner, revoke, image)
      case Kept(i, rows) => After(rows, RunBody(next, revoke, i))
      case Raised => Raised
      case Abandoned => Abandoned
  }

  function After(rows: nat, ran: Ran): Ran {
    if ran.Kept? then Kept(ran.image, rows + ran.rows) else ran
  }

  function RunMutation(m: Mutation, revoke: Sql, image: Image): Ran
    decreases m
  {
    if !m.locks then Raised
    else match RunBody(m.body, revoke, image)
         case Kept(i, rows) =>
           if rows == 0 then Kept(i, 0)
           else (match revoke(i)
                 case Finished(j, more) => Kept(j, rows + more)
                 case Stopped(_) => Raised
                 case RolledBack => Abandoned)
         case Raised => Raised
         case Abandoned => Abandoned
  }

  /** What a mutating call does to the connection: inside a transaction, kept on
      top of it or not at all; outside, committed or not at all. */
  function AfterMutation(before: State, m: Mutation, revoke: Sql, commits: bool): State {
    match RunMutation(m, revoke, before.working)
    case Kept(i, _) =>
      if before.inTransaction then before.(working := i) else if commits then State(i, i, false, []) else before
    case Raised => before
    case Abandoned => before.Discarded()
  }

  /** No row changed, no difference. */
  lemma {:induction false} UnchangedBody(body: Body, revoke: Sql, image: Image)
    requires Counted(body)
    ensures RunBody(body, revoke, image).Kept? && RunBody(body, revoke, image).rows == 0 ==>
              RunBody(body, revoke, image).image == image
    decreases body
  {
    match body
    case End =>
    case Run(write, next) =>
      if write(image.content).Wrote? { UnchangedBody(next, revoke, image.(content := write(image.content).content)); }
    case Call(inner, next) =>
      UnchangedBody(inner.body, revoke, image);
      var ran := RunMutation(inner, revoke, image);
      if ran.Kept? { UnchangedBody(next, revoke, ran.image); }
  }

  /** A mutation that changed rows leaves no readable evidence; one that did not
      leaves the image alone. */
  lemma MutationHonest(m: Mutation, revoke: Sql, image: Image)
    requires Counted(m.body) && Revokes(revoke)
    ensures var ran := RunMutation(m, revoke, image);
            ran.Kept? ==> if ran.rows == 0 then ran.image == image else ran.image.evidence.None? && ran.image.metadata
    ensures RunMutation(m, revoke, image).Kept? && Honest(image) ==> Honest(RunMutation(m, revoke, image).image)
  {
    UnchangedBody(m.body, revoke, image);
  }

  class EntityResolver {
    const conn: Connection

    constructor (conn: Connection)
      ensures this.conn == conn
    {
      this.conn := conn;
    }

    /** `_atomic_mutation` around `_write_transaction`: a savepoint when nested, a
        transaction of its own otherwise. */
    method Mutate(m: Mutation, revoke: Sql, commits: bool) returns (ok: bool)
      requires Counted(m.body) && Revokes(revoke) && conn.Now().Valid() &&
               (!conn.inTransaction ==> Honest(conn.durable))
      modifies conn
      ensures conn.Now() == AfterMutation(old(conn.Now()), m, revoke, commits)
      ensures ok <==> RunMutation(m, revoke, old(conn.working)).Kept? && (commits || old(conn.inTransaction))
      ensures ok ==> conn.totalChanges == old(conn.totalChanges) + RunMutation(m, revoke, old(conn.working)).rows
      ensures conn.totalChanges >= old(conn.totalChanges)
      decreases m, 1
    {
      hide Revokes, Counts, Honest;
      MutationHonest(m, revoke, conn.working);
      var nested := conn.inTransaction;
      if nested {
        conn.Savepoint();
      } else {
        if !m.locks { return false; }
        conn.Begin();
      }
      ok := m.locks;
      if ok { ok := Method(m, revoke); }
      if ok && nested {
        conn.Release();
      } else if ok && commits {
        conn.Commit();
      } else {
        ok := false;
        if !nested {
          conn.Rollback();
        } else if conn.inTransaction {
          conn.RollbackTo();
          conn.Release();
        }
      }
    }

    /** The wrapped method, and the revocation when it changed anything. */
    method Method(m: Mutation, revoke: Sql) returns (ok: bool)
      requires m.locks && Counted(m.body) && Revokes(revoke) && conn.inTransaction
      modifies conn
      ensures ok <==> RunMutation(m, revoke, old(conn.working)).Kept?
      ensures ok ==> conn.Now() == old(conn.Now()).(working := RunMutation(m, revoke, old(conn.working)).image)
      ensures ok ==> conn.totalChanges == old(conn.totalChanges) + RunMutation(m, revoke, old(conn.working)).rows
      ensures conn.totalChanges >= old(conn.totalChanges)
      ensures !ok ==> Failed(old(conn.Now()), conn.Now(), RunMutation(m, revoke, old(conn.working)))
      decreases m, 0
    {
      hide Revokes, Counts, Honest;
      var before := conn.totalChanges;
      ok := Statements(m.body, revoke);
      if ok && conn.totalChanges != before {
        ok := conn.Execute(revoke);
      }
    }

    /** The body, statement by statement; the first exception ends it. */
    method Statements(body: Body, revoke: Sql) returns (ok: bool)
      requires Counted(body) && Revokes(revoke) && conn.inTransaction
      modifies conn
      ensures ok <==> RunBody(body, revoke, old(conn.working)).Kept?
      ensures ok ==> conn.Now() == old(conn.Now()).(working := RunBody(body, revoke, old(conn.working)).image)
      ensures ok ==> conn.totalChanges == old(conn.totalChanges) + RunBody(body, revoke, old(conn.working)).rows
      ensures conn.totalChanges >= old(conn.totalChanges)
      ensures !ok ==> Failed(old(conn.Now()), conn.Now(), RunBody(body, revoke, old(conn.working)))
      decreases body
    {
      match body
      case End => ok := true;
      case Run(write, next) =>
        ok := conn.Execute(AsSql(write));
        if ok { ok := Statements(next, revoke); }
      case Call(inner, next) =>
        ok := Mutate(inner, revoke, true);
        if ok { ok := Statements(next, revoke); }
    }
  }

  // ---- Atomization ----

  /** The content after the first n inserts and how many of them added an atom,
      if none of them failed. */
  function Inserts(rows: seq<Write>, n: nat, content: Content): Option<(Content, nat)>
    requires n <= |rows|
  {
    if n == 0 then Some((content, 0))
    else match Inserts(rows, n - 1, content)
         case None => None
         case Some(p) =>
           match rows[n - 1](p.0)
           case Wrote(c, added) => Some((c, p.1 + added))
           case Partly(_) => None
           case Lost => None
  }

  /** One projected row with the revocation that goes with the first atom: done
      together, undone together, or gone with the transaction. Later rows have no
      savepoint, so a partly done one stays as far as it got. */
  function InsertStep(write: Write, revoke: Sql, image: Image, revokeTrust: bool): Step {
    match write(image.content)
    case Lost => RolledBack
    case Partly(c) => Stopped(if revokeTrust then image else image.(content := c))
    case Wrote(c, added) =>
      if !(revokeTrust && added == 1) then Finished(image.(content := c), added)
      else match revoke(image.(content := c))
           case Finished(j, _) => Finished(j, added)
           case Stopped(_) => Stopped(image)
           case RolledBack => RolledBack
  }

  /** `_insert_atom`: the first atom and the revocation stand or fall together. The
      caller keeps its transaction and its savepoints unless the engine rolled the
      insert, or the revocation, back. */
  method InsertAtom(conn: Connection, write: Write, revoke: Sql, revokeTrust: bool) returns (ok: bool, added: nat)
    requires conn.Now().Valid() && (revokeTrust || conn.inTransaction)
    modifies conn
    ensures match InsertStep(write, revoke, old(conn.working), revokeTrust)
            case Finished(i, n) => ok && added == n &&
                                   conn.Now() == old(conn.Now()).(inTransaction := true, working := i)
            case Stopped(i) => !ok && conn.Now() == old(conn.Now()).(inTransaction := true, working := i)
            case RolledBack => !ok && conn.Now() == old(conn.Now()).Discarded()
  {
    hide AsSql;
    AsSqlStep(write, conn.working);
    if !revokeTrust {
      var rows := conn.totalChanges;
      ok := conn.Execute(AsSql(write));
      added := if ok then conn.totalChanges - rows else 0;
      return;
    }
    if !conn.inTransaction { conn.Begin(); }
    conn.Savepoint();
    ok, added := InsertAndRevoke(conn, write, revoke);
    if conn.inTransaction {
      if !ok { conn.RollbackTo(); }
      conn.Release();
    }
  }

  /** The insert, and the revocation that the first atom brings. */
  method InsertAndRevoke(conn: Connection, write: Write, revoke: Sql) returns (ok: bool, added: nat)
    requires conn.inTransaction
    modifies conn
    ensures match InsertStep(write, revoke, old(conn.working), true)
            case Finished(i, n) => ok && added == n && conn.Now() == old(conn.Now()).(working := i)
            case Stopped(_) => !ok && conn.Now() == old(conn.Now()).(working := conn.working)
            case RolledBack => !ok && conn.Now() == old(conn.Now()).Discarded()
  {
    hide AsSql;
    AsSqlStep(write, conn.working);
    var rows := conn.totalChanges;
    ok := conn.Execute(AsSql(write));
    added := if ok then conn.totalChanges - rows else 0;
    if ok && added == 1 {
      ok := conn.Execute(revoke);
    }
  }

  /** The working image after n rows that all went in: their content on top of
      what the caller had, revoked once one of them added an atom. */
  function AfterRows(rows: seq<Write>, n: nat, before: Image): Option<Image>
    requires n <= |rows|
  {
    match Inserts(rows, n, before.content)
    case None => None
    case Some(p) => Some(Marked(before, p.0, p.1 > 0))
  }

  /** Rows before n go in as statements, and row n's step fails. */
  ghost predicate FailsAt(rows: seq<Write>, revoke: Sql, before: Image, n: nat) {
    n < |rows| && AfterRows(rows, n, before).Some? && !RowStep(rows, revoke, before, n).Finished?
  }

  function RowStep(rows: seq<Write>, revoke: Sql, before: Image, n: nat): Step
    requires n < |rows| && AfterRows(rows, n, before).Some?
  {
    InsertStep(rows[n], revoke, AfterRows(rows, n, before).value, Inserts(rows, n, before.content).value.1 == 0)
  }

  /** Rows that insert at most one atom, and say so. */
  ghost predicate Projection(rows: seq<Write>) {
    forall k | 0 <= k < |rows| :: Counts(rows[k]) && forall c :: rows[k](c).Wrote? ==> rows[k](c).rows <= 1
  }

  /** What a call that fails leaves: everything the caller had before the row that
      failed, with the earlier rows on top; or, when that row's step made the
      engine roll back, nothing pending at all. A commit that does not get through
      leaves every row pending. */
  ghost predicate LeavesPending(rows: seq<Write>, revoke: Sql, commits: bool, before: State, now: State) {
    (exists n: nat :: FailsFirst(rows, revoke, before.working, n) && now == AfterFailedRow(rows, revoke, before, n)) ||
    (!commits && (forall n: nat :: !FailsAt(rows, revoke, before.working, n)) &&
     AfterRows(rows, |rows|, before.working).Some? && (before.inTransaction ==> now.inTransaction) &&
     now == before.(inTransaction := now.inTransaction, working := AfterRows(rows, |rows|, before.working).value))
  }

  ghost predicate FailsFirst(rows: seq<Write>, revoke: Sql, before: Image, n: nat) {
    FailsAt(rows, revoke, before, n) && forall k: nat | k < n :: !FailsAt(rows, revoke, before, k)
  }

  /** The transaction and its savepoints stay, unless the failing step made the
      engine roll back. */
  function AfterFailedRow(rows: seq<Write>, revoke: Sql, before: State, n: nat): State
    requires n < |rows| && AfterRows(rows, n, before.working).Some?
  {
    match RowStep(rows, revoke, before.working, n)
    case Stopped(i) => before.(inTransaction := true, working := i)
    case RolledBack => before.Discarded()
    case Finished(_, _) => before
  }

  /** `atomize_db`: project every row, commit once. */
  method AtomizeDb(conn: Connection, rows: seq<Write>, revoke: Sql, commits: bool) returns (ok: bool, inserted: nat)
    requires conn.Now().AllHonest() && Revokes(revoke) && Projection(rows)
    modifies conn
    ensures conn.Now().AllHonest()
    ensures ok ==> Inserts(rows, |rows|, old(conn.working).content) == Some((conn.durable.content, inserted))
    ensures ok ==>
              AfterRows(rows, |rows|, old(conn.working)) == Some(conn.durable) && conn.Now() == conn.Now().Discarded()
    ensures ok ==> commits && forall n: nat :: !FailsAt(rows, revoke, old(conn.working), n)
    ensures !ok ==> conn.durable == old(conn.durable)
    ensures !ok ==> LeavesPending(rows, revoke, commits, old(conn.Now()), conn.Now())
  {
    hide Revokes, Projection, InsertStep, FailsAt, RowStep, AfterRows;
    ghost var before := conn.Now();
    var trustRevoked := false;
    inserted := 0;
    NoRows(rows, revoke, before.working);
    for n := 0 to |rows|
      invariant conn.Now() == before.(inTransaction := conn.inTransaction, working := conn.working)
      invariant conn.Now().AllHonest() && (before.inTransaction ==> conn.inTransaction)
      invariant Inserts(rows, n, before.working.content) == Some((conn.working.content, inserted))
      invariant AfterRows(rows, n, before.working) == Some(conn.working)
      invariant trustRevoked <==> inserted > 0
      invariant if inserted > 0 then conn.inTransaction else conn.working == before.working
      invariant forall k: nat | k < n :: !FailsAt(rows, revoke, before.working, k)
    {
      var added;
      NextRow(rows, revoke, before.working, n);
      ok, added := InsertAtom(conn, rows[n], revoke, !trustRevoked);
      if !ok {
        assert FailsFirst(rows, revoke, before.working, n);
        return;
      }
      inserted := inserted + added;
      if added == 1 { trustRevoked := true; }
    }
    PastTheEnd(rows, revoke, before.working);
    if !commits { return false, inserted; }
    conn.Commit();
    return true, inserted;
  }

  lemma NoRows(rows: seq<Write>, revoke: Sql, before: Image)
    ensures Inserts(rows, 0, before.content) == Some((before.content, 0)) && AfterRows(rows, 0, before) == Some(before)
  {}

  lemma PastTheEnd(rows: seq<Write>, revoke: Sql, before: Image)
    ensures forall k: nat | k >= |rows| :: !FailsAt(rows, revoke, before, k)
  {}

  /** The row at n: what its step is, and where it leads when it goes in. */
  lemma NextRow(rows: seq<Write>, revoke: Sql, before: Image, n: nat)
    requires Revokes(revoke) && Projection(rows) && n < |rows| && AfterRows(rows, n, before).Some? && Honest(before)
    requires Inserts(rows, n, before.content).value.1 == 0 ==> AfterRows(rows, n, before).value == before
    ensures var now, added := AfterRows(rows, n, before).value, Inserts(rows, n, before.content).value.1;
            var step := InsertStep(rows[n], revoke, now, added == 0);
            RowStep(rows, revoke, before, n) == step && (FailsAt(rows, revoke, before, n) <==> !step.Finished?) &&
            (step.Finished? ==>
               step.rows <= 1 && AfterRows(rows, n + 1, before) == Some(step.image) && Honest(step.image) &&
               Inserts(rows, n + 1, before.content) == Some((step.image.content, added + step.rows))) &&
            (step.Finished? && added + step.rows == 0 ==> step.image == before) &&
            (step.Stopped? ==> Honest(step.image))
  {
    assert Counts(rows[n]);
  }

  /** Where an exception leaves the connection before the enclosing call undoes
      it: the transaction and its savepoints are as they were, or all gone. */
  ghost predicate Failed(before: State, after: State, ran: Ran) {
    if ran.Abandoned? then after == before.Discarded() else after == before.(working := after.working)
  }

  /** A body with every nested call replaced by the statements it runs. */
  function Inlined(body: Body, rest: Body): Body
    decreases body
  {
    match body
    case End => rest
    case Run(write, next) => Run(write, Inlined(next, rest))
    case Call(inner, next) =>
      if inner.locks then Inlined(inner.body, Inlined(next, rest)) else Run(c => Partly(c), End)
  }

  /** The statements alone, no call and no revocation: the content they leave
      and whether any of them changed a row. */
  function RunFlat(body: Body, content: Content): Option<(Content, bool)>
    decreases body
  {
    match body
    case End => Some((content, false))
    case Run(write, next) =>
      (match write(content)
       case Wrote(c, rows) => Changing(rows > 0, RunFlat(next, c))
       case Partly(_) => None
       case Lost => None)
    case Call(_, _) => None
  }

  function Changing(changed: bool, r: Option<(Content, bool)>): Option<(Content, bool)> {
    if r.Some? then Some((r.value.0, changed || r.value.1)) else None
  }

  ghost predicate AlwaysRevokes(revoke: Sql) {
    forall i: Image :: i.metadata ==> revoke(i).Finished? && revoke(i).image == i.Revoked()
  }

  /** The evidence goes when a row changes. */
  function Marked(i: Image, content: Content, changed: bool): Image {
    if changed then i.(content := content).Revoked() else i.(content := content)
  }

  /** How a body ends matches the flat run of its statements followed by `rest`. */
  ghost predicate Flat(ran: Ran, body: Body, rest: Body, image: Image) {
    var flat := RunFlat(Inlined(body, rest), image.content);
    if ran.Kept? then flat == Changing(ran.rows > 0, RunFlat(rest, ran.image.content)) else flat.None?
  }

  /** What the statements of a body leave of the evidence: nothing is revoked but
      by a nested call that changed a row, and the content is as written. */
  ghost predicate MayRevoke(ran: Ran, image: Image) {
    ran.Kept? ==>
      ran.image.metadata == image.metadata &&
      (ran.image.evidence == image.evidence || (ran.image.evidence.None? && ran.rows > 0)) &&
      (ran.rows == 0 ==> ran.image == image)
  }

  lemma {:induction false} BodyMayRevoke(body: Body, revoke: Sql, image: Image)
    requires Counted(body) && AlwaysRevokes(revoke) && image.metadata
    ensures MayRevoke(RunBody(body, revoke, image), image)
    decreases body
  {
    match body
    case End =>
    case Run(write, next) =>
      if write(image.content).Wrote? {
        BodyMayRevoke(next, revoke, image.(content := write(image.content).content));
      }
    case Call(inner, next) =>
      if inner.locks {
        BodyMayRevoke(inner.body, revoke, image);
        var ran := RunMutation(inner, revoke, image);
        if ran.Kept? { BodyMayRevoke(next, revoke, ran.image); }
      }
  }

  lemma {:induction false} BodyFlat(body: Body, rest: Body, revoke: Sql, image: Image)
    requires Counted(body) && AlwaysRevokes(revoke) && image.metadata
    ensures Flat(RunBody(body, revoke, image), body, rest, image)
    decreases body
  {
    match body
    case End =>
    case Run(write, next) =>
      if write(image.content).Wrote? {
        BodyFlat(next, rest, revoke, image.(content := write(image.content).content));
      }
    case Call(inner, next) =>
      if inner.locks {
        BodyFlat(inner.body, Inlined(next, rest), revoke, image);
        BodyMayRevoke(inner.body, revoke, image);
        var ran := RunMutation(inner, revoke, image);
        if ran.Kept? { BodyFlat(next, rest, revoke, ran.image); }
      }
  }

  /** Nesting does not show: a tree of calls, each with its own savepoint and its
      own revocation, keeps exactly the content its statements leave in one line,
      fails exactly when they do, and revokes exactly when a row changed. */
  lemma NestingInvisible(m: Mutation, revoke: Sql, image: Image)
    requires m.locks && Counted(m.body) && AlwaysRevokes(revoke) && image.metadata
    ensures match RunFlat(Inlined(m.body, End), image.content)
            case Some(p) => RunMutation(m, revoke, image).Kept? &&
                            RunMutation(m, revoke, image).image == Marked(image, p.0, p.1)
            case None => !RunMutation(m, revoke, image).Kept?
  {
    BodyFlat(m.body, End, revoke, image);
    BodyMayRevoke(m.body, revoke, image);
  }

  // ---- Which step fails first ----

  /** A tree of calls as the line of steps it takes: locks, the row counts taken
      before and compared after each method, statements, revocations. */
  datatype Line = Lock(locks: bool) | Remember | Do(write: Write) | RevokeIfChanged

  function BodyLines(body: Body): seq<Line>
    decreases body
  {
    match body
    case End => []
    case Run(write, next) => [Do(write)] + BodyLines(next)
    case Call(inner, next) => Lines(inner) + BodyLines(next)
  }

  function Lines(m: Mutation): seq<Line>
    decreases m
  {
    [Lock(m.locks), Remember] + BodyLines(m.body) + [RevokeIfChanged]
  }

  /** The connection along the line: image, rows changed so far, counts remembered. */
  datatype Flow = Flow(image: Image, total: nat, marks: seq<nat>)

  function LineStep(line: Line, revoke: Sql, f: Flow): Step {
    match line
    case Lock(locks) => if locks then Finished(f.image, 0) else Stopped(f.image)
    case Remember => Finished(f.image, 0)
    case Do(write) => AsSql(write)(f.image)
    case RevokeIfChanged =>
      if f.marks != [] && f.marks[|f.marks| - 1] == f.total then Finished(f.image, 0) else revoke(f.image)
  }

  function NextFlow(line: Line, f: Flow, image: Image, rows: nat): Flow {
    Flow(image, f.total + rows,
         if line.Remember? then f.marks + [f.total]
         else if line.RevokeIfChanged? && f.marks != [] then f.marks[..|f.marks| - 1]
         else f.marks)
  }

  /** The first step that does not finish, if any. */
  function FirstFailure(lines: seq<Line>, revoke: Sql, f: Flow): Option<Step>
    decreases |lines|
  {
    if lines == [] then None
    else
      var step := LineStep(lines[0], revoke, f);
      if step.Finished? then FirstFailure(lines[1..], revoke, NextFlow(lines[0], f, step.image, step.rows))
      else Some(step)
  }

  /** How a run ends agrees with its first failing step; without one, what follows
      goes on from what it left. */
  ghost predicate EndsAs(ran: Ran, lines: seq<Line>, rest: seq<Line>, revoke: Sql, f: Flow) {
    var failure := FirstFailure(lines + rest, revoke, f);
    match ran
    case Kept(i, rows) => failure == FirstFailure(rest, revoke, Flow(i, f.total + rows, f.marks))
    case Raised => failure.Some? && failure.value.Stopped?
    case Abandoned => failure == Some(RolledBack)
  }

  lemma FailureCons(line: Line, rest: seq<Line>, revoke: Sql, f: Flow)
    ensures var step := LineStep(line, revoke, f);
            FirstFailure([line] + rest, revoke, f) ==
              if step.Finished? then FirstFailure(rest, revoke, NextFlow(line, f, step.image, step.rows))
              else Some(step)
  {
    assert ([line] + rest)[1..] == rest;
  }

  lemma OpenCons(locks: bool, rest: seq<Line>, revoke: Sql, f: Flow)
    ensures FirstFailure([Lock(locks), Remember] + rest, revoke, f) ==
              if locks then FirstFailure(rest, revoke, f.(marks := f.marks + [f.total])) else Some(Stopped(f.image))
  {
    hide FirstFailure;
    assert [Lock(locks), Remember] + rest == [Lock(locks)] + ([Remember] + rest);
    FailureCons(Lock(locks), [Remember] + rest, revoke, f);
    if locks { FailureCons(Remember, rest, revoke, f); }
  }

  lemma CloseCons(rest: seq<Line>, revoke: Sql, f: Flow, mark: nat)
    ensures var step := if mark == f.total then Finished(f.image, 0) else revoke(f.image);
            FirstFailure([RevokeIfChanged] + rest, revoke, f.(marks := f.marks + [mark])) ==
              if step.Finished? then FirstFailure(rest, revoke, Flow(step.image, f.total + step.rows, f.marks))
              else Some(step)
  {
    hide FirstFailure;
    var g := f.(marks := f.marks + [mark]);
    FailureCons(RevokeIfChanged, rest, revoke, g);
    assert g.marks[..|g.marks| - 1] == f.marks;
  }

  lemma {:induction false} BodyEndsAs(body: Body, rest: seq<Line>, revoke: Sql, f: Flow)
    ensures EndsAs(RunBody(body, revoke, f.image), BodyLines(body), rest, revoke, f)
    decreases body, 0
  {
    hide FirstFailure, RunMutation, Lines;
    match body
    case End =>
      assert [] + rest == rest;
    case Run(write, next) =>
      var line := Do(write);
      FailureCons(line, BodyLines(next) + rest, revoke, f);
      assert BodyLines(body) + rest == [line] + (BodyLines(next) + rest);
      if write(f.image.content).Wrote? {
        var Wrote(c, rows) := write(f.image.content);
        BodyEndsAs(next, rest, revoke, NextFlow(line, f, f.image.(content := c), rows));
      }
    case Call(inner, next) =>
      assert BodyLines(body) + rest == Lines(inner) + (BodyLines(next) + rest);
      MutationEndsAs(inner, BodyLines(next) + rest, revoke, f);
      var ran := RunMutation(inner, revoke, f.image);
      if ran.Kept? { BodyEndsAs(next, rest, revoke, Flow(ran.image, f.total + ran.rows, f.marks)); }
  }

  lemma {:induction false} MutationEndsAs(m: Mutation, rest: seq<Line>, revoke: Sql, f: Flow)
    ensures EndsAs(RunMutation(m, revoke, f.image), Lines(m), rest, revoke, f)
    decreases m, 1
  {
    hide RunBody, BodyLines, FirstFailure;
    var tail := [RevokeIfChanged] + rest;
    assert Lines(m) + rest == [Lock(m.locks), Remember] + (BodyLines(m.body) + tail);
    OpenCons(m.locks, BodyLines(m.body) + tail, revoke, f);
    if m.locks {
      BodyEndsAs(m.body, tail, revoke, f.(marks := f.marks + [f.total]));
      var ran := RunBody(m.body, revoke, f.image);
      if ran.Kept? { CloseCons(rest, revoke, Flow(ran.image, f.total + ran.rows, f.marks), f.total); }
    }
  }

  ghost function FailureOf(m: Mutation, revoke: Sql, image: Image): Option<Step> {
    FirstFailure(Lines(m), revoke, Flow(image, 0, []))
  }

  /** A mutating call inside the caller's transaction succeeds exactly when no step
      of it fails, at any depth; and its failure costs the caller the pending
      writes exactly when the first step to fail makes the engine roll back. */
  lemma MutationKeptIff(before: State, m: Mutation, revoke: Sql, commits: bool)
    requires before.Valid() && before.inTransaction
    ensures RunMutation(m, revoke, before.working).Kept? <==> FailureOf(m, revoke, before.working).None?
    ensures AfterMutation(before, m, revoke, commits).inTransaction <==>
              FailureOf(m, revoke, before.working) != Some(RolledBack)
    ensures FailureOf(m, revoke, before.working).Some? ==>
              (AfterMutation(before, m, revoke, commits) ==
               if FailureOf(m, revoke, before.working).value.RolledBack? then before.Discarded() else before)
  {
    MutationEndsAs(m, [], revoke, Flow(before.working, 0, []));
    assert Lines(m) + [] == Lines(m);
    hide RunMutation, Lines;
  }

  // ---- Any history of one connection ----

  datatype Op =
    | GuardedSql(statement: Statement, revoke: Sql, locks: bool)
    | GuardedCommit(revoke: Sql, commits: bool)
    | GuardedRollback
    | Close
    | Mutating(mutation: Mutation, revoke: Sql, commits: bool)
    | Atomizing(rows: seq<Write>, revoke: Sql, commits: bool)
    | BeginOuter
    | OuterSavepoint
    | OuterRollbackTo
    | OuterRelease
    | Publish
  {
    ghost predicate Valid() {
      match this
      case GuardedSql(s, revoke, _) => s.Valid() && Revokes(revoke)
      case GuardedCommit(revoke, _) => Revokes(revoke)
      case Mutating(m, revoke, _) => Counted(m.body) && Revokes(revoke)
      case Atomizing(rows, revoke, _) => Revokes(revoke) && Projection(rows)
      case _ => true
    }
  }

  /** The connection, and the query object's flag, between two calls. */
  datatype Moment = Moment(state: State, writePending: bool)

  /** Whether a step of the call makes the engine roll the transaction back. */
  ghost predicate EngineDrops(op: Op, before: Moment) {
    var image := before.state.working;
    match op
    case GuardedSql(s, revoke, _) => HitsRollback(s, revoke, image)
    case GuardedCommit(revoke, _) => before.writePending && image.metadata && revoke(image).RolledBack?
    case Mutating(m, revoke, _) => FailureOf(m, revoke, image) == Some(RolledBack)
    case Atomizing(rows, revoke, _) =>
      exists n: nat :: FailsFirst(rows, revoke, image, n) && RowStep(rows, revoke, image, n).RolledBack?
    case _ => false
  }

  /** A call that fails inside the caller's transaction loses it exactly when one of
      its steps makes the engine roll back. Otherwise the pending writes and the
      savepoints are there as before; atomization leaves its earlier rows on top,
      a commit at most the revocation it began with. */
  ghost predicate KeepsPending(op: Op, before: Moment, ok: bool, after: State) {
    var state := before.state;
    state.inTransaction && !ok ==>
      if EngineDrops(op, before) then after == state.Discarded()
      else
        after == state.(working := after.working) &&
        match op
        case Atomizing(rows, revoke, commits) => LeavesPending(rows, revoke, commits, state, after)
        case GuardedCommit(_, _) => after.working == state.working || after.working == state.working.Revoked()
        case _ => after.working == state.working
  }

  lemma RevokeStops(revoke: Sql, i: Image)
    requires Revokes(revoke)
    ensures !revoke(i).RolledBack? ==> revoke(i).image == i || revoke(i).image == i.Revoked()
  {}

  /** When a call succeeds, by the steps it takes. */
  ghost predicate Succeeds(op: Op, before: Moment) {
    var state := before.state;
    var image := state.working;
    match op
    case GuardedSql(s, revoke, locks) =>
      (locks || state.inTransaction) && !HitsStop(s, revoke, image) && !HitsRollback(s, revoke, image)
    case GuardedCommit(revoke, commits) =>
      commits && (before.writePending && state.inTransaction && image.metadata ==> revoke(image).Finished?)
    case Mutating(m, revoke, commits) => FailureOf(m, revoke, image).None? && (commits || state.inTransaction)
    case Atomizing(rows, revoke, commits) => commits && forall n: nat :: !FailsAt(rows, revoke, image, n)
    case _ => true
  }

  /** What a call that succeeds leaves, the flag of pending writes included: a
      guarded write on top of what was there, its evidence gone; a mutation's flat
      statements, likewise, and durable unless nested; all rows of an atomization,
      durable; a commit, what was pending; and no more. */
  ghost predicate Takes(op: Op, before: Moment, after: Moment) {
    var state := before.state;
    var image := state.working;
    match op
    case GuardedSql(s, _, _) =>
      if s.writes then
        var step := s.sql(image);
        step.Finished? && after == Moment(state.(inTransaction := true, working := step.image.Revoked()), true)
      else after == Moment(state, before.writePending && state.inTransaction)
    case GuardedCommit(_, _) =>
      after == Moment(Settled(if before.writePending && state.inTransaction then image.Revoked() else image), false)
    case GuardedRollback => after == Moment(Settled(state.durable), false)
    case Close => after == Moment(Settled(state.durable), before.writePending)
    case Mutating(m, _, _) =>
      var flat := RunFlat(Inlined(m.body, End), image.content);
      flat.Some? &&
      var now := Marked(image, flat.value.0, flat.value.1);
      after == Moment(if state.inTransaction then state.(working := now) else Settled(now), before.writePending)
    case Atomizing(rows, _, _) =>
      var now := AfterRows(rows, |rows|, image);
      now.Some? && after == Moment(Settled(now.value), before.writePending)
    case BeginOuter => after == before.(state := state.(inTransaction := true))
    case OuterSavepoint =>
      after == if state.inTransaction then before.(state := state.(savepoints := state.savepoints + [image]))
               else before
    case OuterRollbackTo =>
      after == if state.inTransaction && state.savepoints != []
               then before.(state := state.(working := state.savepoints[|state.savepoints| - 1])) else before
    case OuterRelease =>
      after == if state.inTransaction && state.savepoints != []
               then before.(state := state.(savepoints := state.savepoints[..|state.savepoints| - 1])) else before
    case Publish =>
      after == if !state.inTransaction && image.metadata
               then before.(state := Settled(image.(evidence := Some(image.content)))) else before
  }

  /** One image, no transaction. */
  ghost function Settled(i: Image): State { State(i, i, false, []) }

  /** What a call that fails leaves: inside a transaction, what `KeepsPending`
      says; outside, nothing but the rows an atomization left pending. */
  ghost predicate Leaves(op: Op, before: Moment, after: Moment) {
    KeepsPending(op, before, false, after.state) &&
    (!before.state.inTransaction ==>
       match op
       case Atomizing(rows, revoke, commits) => LeavesPending(rows, revoke, commits, before.state, after.state)
       case _ => after.state == before.state) &&
    (after.writePending <==>
       before.writePending && (op.GuardedSql? ==> before.state.inTransaction && after.state.inTransaction))
  }

  ghost predicate Behaves(op: Op, before: Moment, ok: bool, after: Moment) {
    (ok <==> Succeeds(op, before)) && if ok then Takes(op, before, after) else Leaves(op, before, after)
  }

  lemma AtomizingBehaves(rows: seq<Write>, revoke: Sql, commits: bool, before: Moment, ok: bool, after: Moment)
    requires ok ==> commits && forall n: nat :: !FailsAt(rows, revoke, before.state.working, n)
    requires ok ==> AfterRows(rows, |rows|, before.state.working) == Some(after.state.durable) &&
                    after.state == after.state.Discarded()
    requires !ok ==> LeavesPending(rows, revoke, commits, before.state, after.state)
    requires before.writePending == after.writePending
    ensures Behaves(Atomizing(rows, revoke, commits), before, ok, after)
  {
    if !ok {
      AtomizingKeepsPending(rows, revoke, commits, before, after.state);
      hide RowStep, AfterRows, KeepsPending, AfterFailedRow;
      if commits {
        var n: nat :| FailsFirst(rows, revoke, before.state.working, n);
        assert FailsAt(rows, revoke, before.state.working, n);
      }
    } else {
      hide RowStep, AfterRows, FailsAt;
    }
  }

  lemma AtomizingKeepsPending(rows: seq<Write>, revoke: Sql, commits: bool, before: Moment, after: State)
    requires LeavesPending(rows, revoke, commits, before.state, after)
    ensures KeepsPending(Atomizing(rows, revoke, commits), before, false, after)
  {
    hide RowStep, AfterRows;
    var image := before.state.working;
    forall m: nat, n: nat | FailsFirst(rows, revoke, image, m) && FailsFirst(rows, revoke, image, n) ensures m == n {}
  }

  lemma GuardedBehaves(s: Statement, revoke: Sql, locks: bool, before: Moment, ok: bool, after: Moment)
    requires before.state.Valid() && s.Valid() && Revokes(revoke)
    requires if locks || before.state.inTransaction
             then (ok <==> Guarded(s, revoke, before.state.working).Applied?) &&
                  after.state == AfterGuarded(before.state, s, revoke)
             else !ok && after.state == before.state
    requires after.writePending <==> (ok && s.writes) ||
                                     (before.writePending && before.state.inTransaction && after.state.inTransaction)
    ensures Behaves(GuardedSql(s, revoke, locks), before, ok, after)
  {
    GuardedSteps(s, revoke, before.state.working);
    if before.state.inTransaction { PendingKeptIff(before.state, s, revoke); }
    hide Guarded, HitsStop, HitsRollback, Revokes;
  }

  /** A guarded statement seen from outside, by its steps: a write leaves the
      statement's own image with its evidence gone. */
  lemma GuardedSteps(s: Statement, revoke: Sql, image: Image)
    requires Revokes(revoke)
    ensures var ending := Guarded(s, revoke, image);
            (ending.Undone? <==> HitsStop(s, revoke, image)) &&
            (ending.EngineRolledBack? <==> HitsRollback(s, revoke, image)) &&
            (ending.Applied? ==> s.sql(image).Finished? &&
                                 ending.image == if s.writes then s.sql(image).image.Revoked() else s.sql(image).image)
  {
  }

  lemma CommittingBehaves(revoke: Sql, commits: bool, before: Moment, ok: bool, after: Moment)
    requires before.state.Valid() && Revokes(revoke)
    requires var (state, image) := (before.state, before.state.working);
             var first := before.writePending && state.inTransaction && image.metadata;
             (ok <==> (first ==> revoke(image).Finished?) && commits) &&
             if ok then
               !after.writePending && after.state == after.state.Discarded() &&
               after.state.durable == if before.writePending && state.inTransaction then image.Revoked() else image
             else
               after.writePending == before.writePending &&
               after.state == if !first then state else if revoke(image).RolledBack? then state.Discarded()
                              else state.(working := revoke(image).image)
    ensures Behaves(GuardedCommit(revoke, commits), before, ok, after)
  {
    RevokeStops(revoke, before.state.working);
    hide Revokes;
  }

  lemma MutatingBehaves(m: Mutation, revoke: Sql, commits: bool, before: Moment, ok: bool, after: Moment)
    requires before.state.Valid() && Counted(m.body) && Revokes(revoke)
    requires ok <==> RunMutation(m, revoke, before.state.working).Kept? && (commits || before.state.inTransaction)
    requires after == Moment(AfterMutation(before.state, m, revoke, commits), before.writePending)
    ensures Behaves(Mutating(m, revoke, commits), before, ok, after)
  {
    MutationEndsAs(m, [], revoke, Flow(before.state.working, 0, []));
    assert Lines(m) + [] == Lines(m);
    if RunMutation(m, revoke, before.state.working).Kept? { KeptFlat(m, revoke, before.state.working); }
    hide RunMutation, RunFlat, Inlined, Lines, Revokes, Counted;
    if before.state.inTransaction { MutationKeptIff(before.state, m, revoke, commits); }
  }

  /** Whatever the revocation does: a mutation that is kept has its flat statements'
      content, and its evidence is gone exactly when one of them changed a row. */
  lemma KeptFlat(m: Mutation, revoke: Sql, image: Image)
    requires Counted(m.body) && Revokes(revoke) && RunMutation(m, revoke, image).Kept?
    ensures var flat := RunFlat(Inlined(m.body, End), image.content);
            flat.Some? && RunMutation(m, revoke, image).image == Marked(image, flat.value.0, flat.value.1)
  {
    KeptBodyFlat(m.body, End, revoke, image);
    UnchangedBody(m.body, revoke, image);
  }

  lemma {:induction false} KeptBodyFlat(body: Body, rest: Body, revoke: Sql, image: Image)
    requires Counted(body) && Revokes(revoke) && RunBody(body, revoke, image).Kept?
    ensures var ran := RunBody(body, revoke, image);
            RunFlat(Inlined(body, rest), image.content) == Changing(ran.rows > 0, RunFlat(rest, ran.image.content)) &&
            ran.image.metadata == image.metadata &&
            (ran.image.evidence == image.evidence || ran.image.evidence.None?)
    decreases body
  {
    match body
    case End =>
    case Run(write, next) =>
      KeptBodyFlat(next, rest, revoke, image.(content := write(image.content).content));
    case Call(inner, next) =>
      var ran := RunMutation(inner, revoke, image);
      KeptBodyFlat(inner.body, Inlined(next, rest), revoke, image);
      KeptBodyFlat(next, rest, revoke, ran.image);
  }

  lemma MutationState(before: State, m: Mutation, revoke: Sql, commits: bool)
    requires before.AllHonest()
    requires RunMutation(m, revoke, before.working).Kept? ==> Honest(RunMutation(m, revoke, before.working).image)
    ensures AfterMutation(before, m, revoke, commits).AllHonest()
  {
    hide RunMutation;
  }

  /** One call. Statements may fail; the caller may hold savepoints of its own.
      Publishing fresh evidence needs the file to itself. */
  method Perform(query: IcarusQuery, resolver: EntityResolver, op: Op) returns (ok: bool)
    requires op.Valid() && query.conn == resolver.conn && query.conn.Now().AllHonest()
    modifies query, query.conn
    ensures query.conn.Now().AllHonest()
    ensures Behaves(op, Moment(old(query.conn.Now()), old(query.writePending)), ok,
                    Moment(query.conn.Now(), query.writePending))
  {
    hide Revokes, Statement.Valid, Counts, Counted, Projection, RunMutation, AfterMutation, Guarded, AfterGuarded,
         LeavesPending, FailureOf, KeepsPending, Leaves, AfterRows, FailsAt, HitsStop, HitsRollback, RunFlat, Inlined;
    var conn := query.conn;
    ghost var before := Moment(conn.Now(), query.writePending);
    ok := true;
    match op
    case GuardedSql(s, revoke, locks) =>
      GuardedHonest(conn.Now(), s, revoke);
      ok := query.Execute(s, revoke, locks);
      GuardedBehaves(s, revoke, locks, before, ok, Moment(conn.Now(), query.writePending));
    case GuardedCommit(revoke, commits) =>
      ok := query.Commit(revoke, commits);
      CommittingBehaves(revoke, commits, before, ok, Moment(conn.Now(), query.writePending));
    case GuardedRollback => query.Rollback();
    case Close => conn.Rollback();
    case Mutating(m, revoke, commits) =>
      MutationHonest(m, revoke, conn.working);
      MutationState(conn.Now(), m, revoke, commits);
      ok := resolver.Mutate(m, revoke, commits);
      MutatingBehaves(m, revoke, commits, before, ok, Moment(conn.Now(), query.writePending));
    case Atomizing(rows, revoke, commits) =>
      var inserted;
      ok, inserted := AtomizeDb(conn, rows, revoke, commits);
      AtomizingBehaves(rows, revoke, commits, before, ok, Moment(conn.Now(), query.writePending));
    case BeginOuter => if !conn.inTransaction { conn.Begin(); }
    case OuterSavepoint => if conn.inTransaction { conn.Savepoint(); }
    case OuterRollbackTo => if conn.inTransaction && conn.savepoints != [] { conn.RollbackTo(); }
    case OuterRelease => if conn.inTransaction && conn.savepoints != [] { conn.Release(); }
    case Publish =>
      if !conn.inTransaction && conn.working.metadata {
        conn.durable := conn.working.(evidence := Some(conn.working.content));
        conn.working := conn.durable;
      }
  }

  /** A history, moment by moment: every image it holds is honest, and every call
      succeeds exactly when its steps do and leaves what is stated of it. */
  ghost predicate IsHistory(image: Image, ops: seq<Op>, trace: seq<Moment>, oks: seq<bool>) {
    |trace| == |ops| + 1 && |oks| == |ops| && trace[0] == Moment(State(image, image, false, []), false) &&
    (forall n | 0 <= n < |trace| :: trace[n].state.AllHonest()) &&
    forall n | 0 <= n < |ops| :: Behaves(ops[n], trace[n], oks[n], trace[n + 1])
  }

  lemma HistoryNext(image: Image, ops: seq<Op>, op: Op, trace: seq<Moment>, oks: seq<bool>, ok: bool, next: Moment)
    requires IsHistory(image, ops, trace, oks)
    requires next.state.AllHonest() && Behaves(op, trace[|ops|], ok, next)
    ensures IsHistory(image, ops + [op], trace + [next], oks + [ok])
  {
    hide Behaves, State.AllHonest;
  }

  /** Any sequence of calls from an honest file, failures and all: what a crash
      now, a commit now, or a rollback to any savepoint now would leave is honest,
      every call does what it should, and no failure loses pending writes but by
      the engine's own rollback. */
  method History(image: HonestImage, ops: seq<Op>)
    returns (final: State, ghost trace: seq<Moment>, ghost oks: seq<bool>)
    requires forall k | 0 <= k < |ops| :: ops[k].Valid()
    ensures IsHistory(image, ops, trace, oks) && final == trace[|ops|].state && final.AllHonest()
  {
    hide Behaves, Op.Valid;
    var conn := new Connection(image);
    var query := new IcarusQuery(conn);
    var resolver := new EntityResolver(conn);
    trace, oks := [Moment(conn.Now(), query.writePending)], [];
    for n := 0 to |ops|
      invariant conn.Now().AllHonest()
      invariant IsHistory(image, ops[..n], trace, oks) && trace[n] == Moment(conn.Now(), query.writePending)
    {
      var ok := Perform(query, resolver, ops[n]);
      ghost var next := Moment(conn.Now(), query.writePending);
      HistoryNext(image, ops[..n], ops[n], trace, oks, ok, next);
      assert ops[..n + 1] == ops[..n] + [ops[n]];
      trace, oks := trace + [next], oks + [ok];
    }
    assert ops[..|ops|] == ops;
    return conn.Now(), trace, oks;
  }
}
