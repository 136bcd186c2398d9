/** The natural-key, structural and observation comparisons read local row ids
    only to join tables. Here: consistently renaming every id in either database
    changes none of their results. */
module RowIds {
  import opened Wrappers
  import opened ObservationDiff

  // ---- Databases and renamings ----

  datatype Binary = Binary(fileId: int, bundle: Option<string>, executable: Option<string>)
  datatype Entitlement = Entitlement(binaryId: int, key: string, value: string)
  datatype Rule = Rule(profileId: int, operation: string, action: string, filterType: Option<string>,
                       filterValue: Option<string>)
  datatype Service = Service(daemonId: int, name: string)
  datatype Observation = Observation(
    table: string, entityId: int, event: string, observedAt: Option<string>,
    properties: string, observer: Option<string>, confidence: Option<Number>)

  /** The compared tables, by row id; `natural` are the tables whose own column is
      the natural key an observation resolves to. */
  datatype Db = Db(
    files: map<int, string>, binaries: map<int, Binary>, entitlements: map<int, Entitlement>,
    profiles: map<int, string>, rules: map<int, Rule>, daemons: map<int, string>, services: map<int, Service>,
    kexts: map<int, string>, frameworks: map<int, string>, observations: map<int, Observation>)

  /** One id renaming per table. */
  datatype Renaming = Renaming(
    file: int -> int, binary: int -> int, entitlement: int -> int, profile: int -> int, rule: int -> int,
    daemon: int -> int, service: int -> int, kext: int -> int, framework: int -> int, observation: int -> int)
  {
    /** How the subject of an observation is renamed: with the table it names. */
    function Subject(table: string): int -> int {
      if table == "files" then file else if table == "binaries" then binary
      else if table == "daemons" then daemon else if table == "kexts" then kext
      else if table == "frameworks" then framework else if table == "sandbox_profiles" then profile
      else i => i
    }
  }

  ghost predicate OneToOne(f: int -> int) { forall a, b :: f(a) == f(b) ==> a == b }

  /** `after` is `before` with row k moved to f(k) and its columns rewritten by g. */
  ghost predicate Moved<V(!new), W(!new)>(before: map<int, V>, after: map<int, W>, f: int -> int, g: V -> W) {
    (forall k | k in before :: f(k) in after && after[f(k)] == g(before[k])) &&
    (forall j | j in after :: exists k :: k in before && f(k) == j)
  }

  ghost predicate TextsMoved(before: map<int, string>, after: map<int, string>, f: int -> int) {
    OneToOne(f) && Moved(before, after, f, (p: string) => p)
  }

  ghost predicate BinariesMoved(before: Db, after: Db, r: Renaming) {
    OneToOne(r.binary) &&
    Moved(before.binaries, after.binaries, r.binary, (b: Binary) => b.(fileId := r.file(b.fileId)))
  }

  ghost predicate EntitlementsMoved(before: Db, after: Db, r: Renaming) {
    OneToOne(r.entitlement) &&
    Moved(before.entitlements, after.entitlements, r.entitlement,
          (e: Entitlement) => e.(binaryId := r.binary(e.binaryId)))
  }

  ghost predicate RulesMoved(before: Db, after: Db, r: Renaming) {
    OneToOne(r.rule) && Moved(before.rules, after.rules, r.rule, (u: Rule) => u.(profileId := r.profile(u.profileId)))
  }

  ghost predicate ServicesMoved(before: Db, after: Db, r: Renaming) {
    OneToOne(r.service) &&
    Moved(before.services, after.services, r.service, (s: Service) => s.(daemonId := r.daemon(s.daemonId)))
  }

  ghost predicate ObservationsMoved(before: Db, after: Db, r: Renaming) {
    OneToOne(r.observation) &&
    Moved(before.observations, after.observations, r.observation,
          (o: Observation) => o.(entityId := r.Subject(o.table)(o.entityId)))
  }

  /** `after` is `before` with every row id, and every reference to it, renamed. */
  ghost predicate Renamed(before: Db, after: Db, r: Renaming) {
    TextsMoved(before.files, after.files, r.file) && TextsMoved(before.profiles, after.profiles, r.profile) &&
    TextsMoved(before.daemons, after.daemons, r.daemon) && TextsMoved(before.kexts, after.kexts, r.kext) &&
    TextsMoved(before.frameworks, after.frameworks, r.framework) &&
    BinariesMoved(before, after, r) && EntitlementsMoved(before, after, r) && RulesMoved(before, after, r) &&
    ServicesMoved(before, after, r) && ObservationsMoved(before, after, r)
  }

  // ---- Results as bags of rows ----

  /** How often a row occurs among the results. */
  ghost function Count<K, R>(rows: map<K, R>, x: R): nat { |set k | k in rows && rows[k] == x| }

  /** The same rows equally often: equal as multisets. */
  ghost predicate SameRows<K, J, R(!new)>(p: map<K, R>, q: map<J, R>) {
    forall x :: Count(p, x) == Count(q, x)
  }

  ghost predicate Onto<K, J>(s: set<K>, t: set<J>, f: K -> J) {
    (forall k | k in s :: f(k) in t) && (forall j | j in t :: exists k :: k in s && f(k) == j) &&
    forall a, b | a in s && b in s && f(a) == f(b) :: a == b
  }

  lemma {:induction false} OntoSize<K, J>(s: set<K>, t: set<J>, f: K -> J)
    requires Onto(s, t, f)
    ensures |s| == |t|
    decreases |s|
  {
    if s == {} {
      assert t == {};
    } else {
      var k :| k in s;
      var j := f(k);
      assert t == (t - {j}) + {j} && s == (s - {k}) + {k};
      OntoSize(s - {k}, t - {j}, f);
    }
  }

  /** A renaming of the result ids that keeps every row keeps the bag. */
  lemma SameRowsBy<K, J, R(!new)>(p: map<K, R>, q: map<J, R>, f: K -> J)
    requires Onto(p.Keys, q.Keys, f) && forall k | k in p :: q[f(k)] == p[k]
    ensures SameRows(p, q)
  {
    forall x ensures Count(p, x) == Count(q, x) {
      OntoSize((set k | k in p && p[k] == x), (set j | j in q && q[j] == x), f);
    }
  }

  // ---- Natural-key diffs ----

  type Row = seq<Option<string>>

  /** `_natural_diff`, one side: the rows whose key columns the other side lacks. */
  function Only(rows: map<int, Row>, others: map<int, Row>, key: Row -> Row): map<int, Row> {
    var keys := set k | k in others :: key(others[k]);
    map k | k in rows && key(rows[k]) !in keys :: rows[k]
  }

  function BinaryRows(db: Db): map<int, Row> {
    map b | b in db.binaries && db.binaries[b].fileId in db.files ::
      [Some(db.files[db.binaries[b].fileId]), db.binaries[b].bundle, db.binaries[b].executable]
  }

  function EntitlementRows(db: Db): map<int, Row> {
    map e | e in db.entitlements && db.entitlements[e].binaryId in db.binaries ::
      [db.binaries[db.entitlements[e].binaryId].bundle, Some(db.entitlements[e].key), Some(db.entitlements[e].value)]
  }

  function RuleRows(db: Db): map<int, Row> {
    map u | u in db.rules && db.rules[u].profileId in db.profiles ::
      [Some(db.profiles[db.rules[u].profileId]), Some(db.rules[u].operation), Some(db.rules[u].action),
       db.rules[u].filterType, db.rules[u].filterValue]
  }

  function ServiceRows(db: Db): map<int, Row> {
    map s | s in db.services && db.services[s].daemonId in db.daemons ::
      [Some(db.daemons[db.services[s].daemonId]), Some(db.services[s].name)]
  }

  /** The projections keep their rows under a renaming. */
  ghost predicate Carried<V(!new)>(before: map<int, V>, after: map<int, V>, f: int -> int) {
    OneToOne(f) && Moved(before, after, f, (v: V) => v)
  }

  lemma BinariesCarried(before: Db, after: Db, r: Renaming)
    requires BinariesMoved(before, after, r) && TextsMoved(before.files, after.files, r.file)
    ensures Carried(BinaryRows(before), BinaryRows(after), r.binary)
  {
    var p, q := BinaryRows(before), BinaryRows(after);
    forall b | b in p ensures r.binary(b) in q && q[r.binary(b)] == p[b] {}
    forall j | j in q ensures exists b :: b in p && r.binary(b) == j {
      var b :| b in before.binaries && r.binary(b) == j;
      FkKept(before.files, after.files, r.file, before.binaries[b].fileId);
    }
  }

  /** A foreign key finds its row after the renaming exactly when it did before. */
  lemma FkKept<V, W>(before: map<int, V>, after: map<int, W>, f: int -> int, k: int)
    requires OneToOne(f) && (forall k | k in before :: f(k) in after) &&
             forall j | j in after :: exists k :: k in before && f(k) == j
    ensures k in before <==> f(k) in after
  {
    var j := f(k);
    if j in after {
      var i :| i in before && f(i) == j;
      assert i == k;
    }
  }

  lemma EntitlementsCarried(before: Db, after: Db, r: Renaming)
    requires EntitlementsMoved(before, after, r) && BinariesMoved(before, after, r)
    ensures Carried(EntitlementRows(before), EntitlementRows(after), r.entitlement)
  {
    var p, q := EntitlementRows(before), EntitlementRows(after);
    forall j | j in q ensures exists e :: e in p && r.entitlement(e) == j {
      var e :| e in before.entitlements && r.entitlement(e) == j;
      FkKept(before.binaries, after.binaries, r.binary, before.entitlements[e].binaryId);
    }
  }

  lemma RulesCarried(before: Db, after: Db, r: Renaming)
    requires RulesMoved(before, after, r) && TextsMoved(before.profiles, after.profiles, r.profile)
    ensures Carried(RuleRows(before), RuleRows(after), r.rule)
  {
    var p, q := RuleRows(before), RuleRows(after);
    forall j | j in q ensures exists u :: u in p && r.rule(u) == j {
      var u :| u in before.rules && r.rule(u) == j;
      FkKept(before.profiles, after.profiles, r.profile, before.rules[u].profileId);
    }
  }

  lemma ServicesCarried(before: Db, after: Db, r: Renaming)
    requires ServicesMoved(before, after, r) && TextsMoved(before.daemons, after.daemons, r.daemon)
    ensures Carried(ServiceRows(before), ServiceRows(after), r.service)
  {
    var p, q := ServiceRows(before), ServiceRows(after);
    forall j | j in q ensures exists s :: s in p && r.service(s) == j {
      var s :| s in before.services && r.service(s) == j;
      FkKept(before.daemons, after.daemons, r.daemon, before.services[s].daemonId);
    }
  }

  lemma OnlyCarried(rows: map<int, Row>, others: map<int, Row>, rows2: map<int, Row>, others2: map<int, Row>,
                    f: int -> int, g: int -> int, key: Row -> Row)
    requires Carried(rows, rows2, f) && Carried(others, others2, g)
    ensures SameRows(Only(rows, others, key), Only(rows2, others2, key))
  {
    var p, q := Only(rows, others, key), Only(rows2, others2, key);
    var keys, keys2 := (set k | k in others :: key(others[k])), (set k | k in others2 :: key(others2[k]));
    forall x ensures x in keys <==> x in keys2 {
      if x in keys { var k :| k in others && key(others[k]) == x; assert key(others2[g(k)]) == x; }
      if x in keys2 { var j :| j in others2 && key(others2[j]) == x; var k :| k in others && g(k) == j; }
    }
    assert keys == keys2;
    forall k | k in p ensures f(k) in q && q[f(k)] == p[k] {
      assert f(k) in rows2 && rows2[f(k)] == rows[k];
    }
    forall j | j in q ensures exists k :: k in p && f(k) == j {
      var k :| k in rows && f(k) == j;
      assert k in p;
    }
    assert Onto(p.Keys, q.Keys, f);
    SameRowsBy(p, q, f);
  }

  /** The four natural-key diffs. */
  datatype Table = Binaries | Entitlements | Rules | Services {
    function Rows(db: Db): map<int, Row> {
      match this
      case Binaries => BinaryRows(db)
      case Entitlements => EntitlementRows(db)
      case Rules => RuleRows(db)
      case Services => ServiceRows(db)
    }

    /** Binaries compare by path alone, the rest by every projected column. */
    function Key(row: Row): Row {
      if this == Binaries && |row| > 0 then row[..1] else row
    }
  }

  /** Natural-key diffs do not see row ids: renaming all of them, differently in
      the two databases, leaves the added and the removed rows as they were. */
  lemma NaturalDiffIgnoresIds(t: Table, new': Db, old': Db, new2: Db, old2: Db, r: Renaming, s: Renaming)
    requires Renamed(new', new2, r) && Renamed(old', old2, s)
    ensures SameRows(Only(t.Rows(new'), t.Rows(old'), t.Key), Only(t.Rows(new2), t.Rows(old2), t.Key))
    ensures SameRows(Only(t.Rows(old'), t.Rows(new'), t.Key), Only(t.Rows(old2), t.Rows(new2), t.Key))
  {
    hide Renamed, BinaryRows, EntitlementRows, RuleRows, ServiceRows, Carried, SameRows, Only;
    var f := RowsCarried(t, new', new2, r);
    var g := RowsCarried(t, old', old2, s);
    OnlyCarried(t.Rows(new'), t.Rows(old'), t.Rows(new2), t.Rows(old2), f, g, t.Key);
    OnlyCarried(t.Rows(old'), t.Rows(new'), t.Rows(old2), t.Rows(new2), g, f, t.Key);
  }

  lemma RowsCarried(t: Table, before: Db, after: Db, r: Renaming) returns (f: int -> int)
    requires Renamed(before, after, r)
    ensures Carried(t.Rows(before), t.Rows(after), f)
  {
    hide TextsMoved, BinariesMoved, EntitlementsMoved, RulesMoved, ServicesMoved, ObservationsMoved, BinaryRows,
         EntitlementRows, RuleRows, ServiceRows, Carried;
    match t
    case Binaries => f := r.binary; BinariesCarried(before, after, r);
    case Entitlements => f := r.entitlement; EntitlementsCarried(before, after, r);
    case Rules => f := r.rule; RulesCarried(before, after, r);
    case Services => f := r.service; ServicesCarried(before, after, r);
  }

  // ---- Structural diff ----

  /** One row as a structural query sees it: the name it is matched by (None when
      a NULL keeps it out), and its owner's natural identity (None when the
      owner's row is missing, so that the join drops it). */
  datatype Entry = Entry(name: Option<seq<string>>, owner: Option<string>)

  type Side = map<int, Entry>

  /** `GROUP BY name HAVING COUNT(*) = 1`. */
  ghost predicate Alone(side: Side, k: int) {
    k in side && side[k].name.Some? && forall j | j in side && side[j].name == side[k].name :: j == k
  }

  datatype Move = Move(name: seq<string>, old': string, new': string)

  ghost predicate HasMoved(new': Side, old': Side, n: int, o: int) {
    Alone(new', n) && Alone(old', o) && new'[n].name == old'[o].name &&
    new'[n].owner.Some? && old'[o].owner.Some? && new'[n].owner != old'[o].owner
  }

  /** The joined rows, by the pair of row ids each came from. */
  ghost function Moves(new': Side, old': Side): map<(int, int), Move> {
    map n, o | n in new' && o in old' && HasMoved(new', old', n, o) ::
      (n, o) := Move(new'[n].name.value, old'[o].owner.value, new'[n].owner.value)
  }

  function Executables(db: Db): Side {
    map b | b in db.binaries ::
      Entry(if db.binaries[b].executable.Some? then Some([db.binaries[b].executable.value]) else None,
            if db.binaries[b].fileId in db.files then Some(db.files[db.binaries[b].fileId]) else None)
  }

  function Assignments(db: Db): Side {
    map u | u in db.rules ::
      Entry(Some([db.rules[u].operation, db.rules[u].action]),
            if db.rules[u].profileId in db.profiles then Some(db.profiles[db.rules[u].profileId]) else None)
  }

  /** COALESCE(bundle, executable, 'path:' || path) of the owning binary. */
  function Owner(db: Db, b: int): Option<string> {
    if b in db.binaries && db.binaries[b].fileId in db.files then
      var binary := db.binaries[b];
      if binary.bundle.Some? then binary.bundle
      else if binary.executable.Some? then binary.executable
      else Some("path:" + db.files[binary.fileId])
    else None
  }

  function Grants(db: Db): Side {
    map e | e in db.entitlements :: Entry(Some([db.entitlements[e].key, db.entitlements[e].value]),
                                          Owner(db, db.entitlements[e].binaryId))
  }

  /** An unambiguous name yields at most one moved row. */
  lemma OneMovePerName(new': Side, old': Side, p: (int, int), q: (int, int))
    requires p in Moves(new', old') && q in Moves(new', old') && Moves(new', old')[p].name == Moves(new', old')[q].name
    ensures p == q
  {
    assert HasMoved(new', old', p.0, p.1) && HasMoved(new', old', q.0, q.1);
  }

  lemma AloneCarried(before: Side, after: Side, f: int -> int, k: int)
    requires Carried(before, after, f) && k in before
    ensures Alone(before, k) <==> Alone(after, f(k))
  {
    if Alone(before, k) {
      forall j | j in after && after[j].name == after[f(k)].name ensures j == f(k) {
        var i :| i in before && f(i) == j;
      }
    }
    if Alone(after, f(k)) {
      forall i | i in before && before[i].name == before[k].name ensures i == k {
        assert f(i) in after;
      }
    }
  }

  lemma MovesCarried(new': Side, old': Side, new2: Side, old2: Side, f: int -> int, g: int -> int)
    requires Carried(new', new2, f) && Carried(old', old2, g)
    ensures SameRows(Moves(new', old'), Moves(new2, old2))
  {
    var p, q := Moves(new', old'), Moves(new2, old2);
    var h := (k: (int, int)) => (f(k.0), g(k.1));
    forall n, o | n in new' && o in old' ensures HasMoved(new', old', n, o) <==> HasMoved(new2, old2, f(n), g(o)) {
      AloneCarried(new', new2, f, n);
      AloneCarried(old', old2, g, o);
    }
    forall n, o | (n, o) in p ensures h((n, o)) in q && q[h((n, o))] == p[(n, o)] {
      assert HasMoved(new2, old2, f(n), g(o));
    }
    forall j | j in q ensures exists k :: k in p && h(k) == j {
      var n :| n in new' && f(n) == j.0;
      var o :| o in old' && g(o) == j.1;
      assert (n, o) in p && h((n, o)) == j;
    }
    SameRowsBy(p, q, h);
  }

  /** The three structural queries. */
  datatype Query = BinaryFile | SandboxProfile | EntitlementOwner {
    function View(db: Db): Side {
      match this
      case BinaryFile => Executables(db)
      case SandboxProfile => Assignments(db)
      case EntitlementOwner => Grants(db)
    }
  }

  lemma ViewCarried(q: Query, before: Db, after: Db, r: Renaming) returns (f: int -> int)
    requires Renamed(before, after, r)
    ensures Carried(q.View(before), q.View(after), f)
  {
    hide TextsMoved, BinariesMoved, EntitlementsMoved, RulesMoved, ServicesMoved, ObservationsMoved, Carried,
         Query.View;
    match q
    case BinaryFile => f := r.binary; ExecutablesCarried(before, after, r);
    case SandboxProfile => f := r.rule; AssignmentsCarried(before, after, r);
    case EntitlementOwner => f := r.entitlement; GrantsCarried(before, after, r);
  }

  lemma ExecutablesCarried(before: Db, after: Db, r: Renaming)
    requires BinariesMoved(before, after, r) && TextsMoved(before.files, after.files, r.file)
    ensures Carried(BinaryFile.View(before), BinaryFile.View(after), r.binary)
  {
    forall b | b in before.binaries { FkKept(before.files, after.files, r.file, before.binaries[b].fileId); }
  }

  lemma AssignmentsCarried(before: Db, after: Db, r: Renaming)
    requires RulesMoved(before, after, r) && TextsMoved(before.profiles, after.profiles, r.profile)
    ensures Carried(SandboxProfile.View(before), SandboxProfile.View(after), r.rule)
  {
    forall u | u in before.rules { FkKept(before.profiles, after.profiles, r.profile, before.rules[u].profileId); }
  }

  lemma GrantsCarried(before: Db, after: Db, r: Renaming)
    requires EntitlementsMoved(before, after, r) && BinariesMoved(before, after, r) &&
             TextsMoved(before.files, after.files, r.file)
    ensures Carried(EntitlementOwner.View(before), EntitlementOwner.View(after), r.entitlement)
  {
    forall e | e in before.entitlements { OwnerKept(before, after, r, before.entitlements[e].binaryId); }
    hide Owner, TextsMoved, BinariesMoved;
  }

  lemma OwnerKept(before: Db, after: Db, r: Renaming, b: int)
    requires BinariesMoved(before, after, r) && TextsMoved(before.files, after.files, r.file)
    ensures Owner(before, b) == Owner(after, r.binary(b))
  {
    FkKept(before.binaries, after.binaries, r.binary, b);
    if b in before.binaries { FkKept(before.files, after.files, r.file, before.binaries[b].fileId); }
  }

  /** The structural diff does not see row ids either. */
  lemma StructuralDiffIgnoresIds(q: Query, new': Db, old': Db, new2: Db, old2: Db, r: Renaming, s: Renaming)
    requires Renamed(new', new2, r) && Renamed(old', old2, s)
    ensures SameRows(Moves(q.View(new'), q.View(old')), Moves(q.View(new2), q.View(old2)))
  {
    hide Renamed, Query.View, Carried, SameRows, Moves;
    var f := ViewCarried(q, new', new2, r);
    var g := ViewCarried(q, old', old2, s);
    MovesCarried(q.View(new'), q.View(old'), q.View(new2), q.View(old2), f, g);
  }

  // ---- Observations ----

  predicate HasNaturalKey(table: string) {
    table in ["binaries", "files", "daemons", "kexts", "frameworks", "sandbox_profiles"]
  }

  function Subjects(db: Db, table: string): map<int, string> {
    if table == "files" then db.files
    else if table == "daemons" then db.daemons
    else if table == "kexts" then db.kexts
    else if table == "frameworks" then db.frameworks
    else if table == "sandbox_profiles" then db.profiles
    else map[]
  }

  /** The first query: the observation joined to its subject, a binary by way of
      its file. */
  function NaturalKey(db: Db, o: Observation): Option<string> {
    if o.table == "binaries" then
      if o.entityId in db.binaries && db.binaries[o.entityId].fileId in db.files
      then Some(db.files[db.binaries[o.entityId].fileId]) else None
    else if o.entityId in Subjects(db, o.table) then Some(Subjects(db, o.table)[o.entityId]) else None
  }

  /** The second query: `NOT EXISTS` a subject row. */
  predicate Orphaned(db: Db, o: Observation) {
    HasNaturalKey(o.table) &&
    if o.table == "binaries" then o.entityId !in db.binaries else o.entityId !in Subjects(db, o.table)
  }

  /** Reported with its raw id: no subject, or a table without natural key. */
  predicate Unresolved(db: Db, o: Observation) { !HasNaturalKey(o.table) || Orphaned(db, o) }

  /** Each observation is compared or reported, never both; and one of the two
      unless it observes a binary whose own file row is missing. */
  lemma ReportedOnce(db: Db, o: Observation)
    ensures !(NaturalKey(db, o).Some? && Unresolved(db, o))
    ensures NaturalKey(db, o).Some? || Unresolved(db, o) <==>
              !(o.table == "binaries" && o.entityId in db.binaries && db.binaries[o.entityId].fileId !in db.files)
  {
  }

  /** Such an observation: in neither query's result. */
  lemma DroppedObservation()
    ensures var o := Observation("binaries", 1, "exec", None, "{}", None, None);
            var db := Db(map[], map[1 := Binary(7, None, None)], map[], map[], map[], map[], map[], map[], map[],
                         map[1 := o]);
            Keyed(db) == map[] && !(exists k :: k in db.observations && Unresolved(db, db.observations[k]))
  {
    var o := Observation("binaries", 1, "exec", None, "{}", None, None);
    var db := Db(map[], map[1 := Binary(7, None, None)], map[], map[], map[], map[], map[], map[], map[], map[1 := o]);
    assert 1 in db.binaries && db.binaries[1].fileId !in db.files;
    ReportedOnce(db, o);
  }

  function RecordOf(db: Db, o: Observation): Record
    requires NaturalKey(db, o).Some?
  {
    Record(Identity(o.table, NaturalKey(db, o).value, o.event, o.observedAt), o.properties, o.observer, o.confidence)
  }

  function Keyed(db: Db): map<int, Record> {
    map k | k in db.observations && NaturalKey(db, db.observations[k]).Some? :: RecordOf(db, db.observations[k])
  }

  lemma SubjectsCarried(before: Db, after: Db, r: Renaming, table: string)
    requires Renamed(before, after, r) && table != "binaries"
    ensures TextsMoved(Subjects(before, table), Subjects(after, table), r.Subject(table))
  {
    hide BinariesMoved, EntitlementsMoved, RulesMoved, ServicesMoved, ObservationsMoved;
  }

  lemma NaturalKeyKept(before: Db, after: Db, r: Renaming, o: Observation)
    requires Renamed(before, after, r)
    ensures NaturalKey(after, o.(entityId := r.Subject(o.table)(o.entityId))) == NaturalKey(before, o)
  {
    hide EntitlementsMoved, RulesMoved, ServicesMoved, ObservationsMoved;
    if o.table == "binaries" {
      BinaryKeyKept(before, after, r, o.entityId);
    } else {
      SubjectsCarried(before, after, r, o.table);
      SubjectKept(Subjects(before, o.table), Subjects(after, o.table), r.Subject(o.table), o.entityId);
      hide TextsMoved, Subjects;
    }
  }

  lemma BinaryKeyKept(before: Db, after: Db, r: Renaming, b: int)
    requires BinariesMoved(before, after, r) && TextsMoved(before.files, after.files, r.file)
    ensures b in before.binaries <==> r.binary(b) in after.binaries
    ensures b in before.binaries ==> after.binaries[r.binary(b)].fileId == r.file(before.binaries[b].fileId)
    ensures b in before.binaries ==>
              (before.binaries[b].fileId in before.files <==> r.file(before.binaries[b].fileId) in after.files)
    ensures b in before.binaries && before.binaries[b].fileId in before.files ==>
              after.files[r.file(before.binaries[b].fileId)] == before.files[before.binaries[b].fileId]
  {
    FkKept(before.binaries, after.binaries, r.binary, b);
    if b in before.binaries { FkKept(before.files, after.files, r.file, before.binaries[b].fileId); }
  }

  lemma SubjectKept(before: map<int, string>, after: map<int, string>, f: int -> int, k: int)
    requires TextsMoved(before, after, f)
    ensures k in before <==> f(k) in after
    ensures k in before ==> after[f(k)] == before[k]
  {
    FkKept(before, after, f, k);
  }

  lemma KeyedCarried(before: Db, after: Db, r: Renaming)
    requires Renamed(before, after, r)
    ensures SameRows(Keyed(before), Keyed(after))
  {
    hide TextsMoved, BinariesMoved, EntitlementsMoved, RulesMoved, ServicesMoved, NaturalKey, Renaming.Subject,
         SameRows, Onto;
    var p, q, f := Keyed(before), Keyed(after), r.observation;
    forall k | k in before.observations
      ensures f(k) in after.observations &&
              NaturalKey(after, after.observations[f(k)]) == NaturalKey(before, before.observations[k])
      ensures after.observations[f(k)] == before.observations[k].(entityId := after.observations[f(k)].entityId)
    {
      NaturalKeyKept(before, after, r, before.observations[k]);
    }
    KeyedOnto(before, after, r);
    forall k | k in p ensures q[f(k)] == p[k] {
      var o, o2 := before.observations[k], after.observations[f(k)];
      assert o2 == o.(entityId := o2.entityId) && NaturalKey(after, o2) == NaturalKey(before, o);
      assert f(k) in q.Keys;
      assert RecordOf(after, o2) == RecordOf(before, o);
    }
    SameRowsBy(p, q, f);
  }

  lemma KeyedOnto(before: Db, after: Db, r: Renaming)
    requires ObservationsMoved(before, after, r)
    requires forall k | k in before.observations ::
               r.observation(k) in after.observations &&
               NaturalKey(after, after.observations[r.observation(k)]) == NaturalKey(before, before.observations[k])
    ensures Onto(Keyed(before).Keys, Keyed(after).Keys, r.observation)
  {
    hide NaturalKey;
    var p, q, f := Keyed(before), Keyed(after), r.observation;
    forall k | k in p.Keys ensures f(k) in q.Keys {
      assert f(k) in after.observations &&
             NaturalKey(after, after.observations[f(k)]) == NaturalKey(before, before.observations[k]);
    }
    forall j | j in q.Keys ensures exists k :: k in p.Keys && f(k) == j {
      var k :| k in before.observations && f(k) == j;
      assert NaturalKey(after, after.observations[f(k)]) == NaturalKey(before, before.observations[k]);
      assert k in p.Keys;
    }
    forall a, b | a in p.Keys && b in p.Keys && f(a) == f(b) ensures a == b {}
  }

  /** A list of a query's rows, in whatever order they came. */
  ghost predicate Lists(q: seq<Record>, rows: map<int, Record>) {
    forall x :: multiset(q)[x] == Count(rows, x)
  }

  lemma SameLists(p: seq<Record>, q: seq<Record>, rows: map<int, Record>, rows2: map<int, Record>)
    requires Lists(p, rows) && Lists(q, rows2) && SameRows(rows, rows2)
    ensures multiset(p) == multiset(q)
  {
    hide Count;
    forall x ensures multiset(p)[x] == multiset(q)[x] {}
  }

  /** The observation diff of the resolved records does not see row ids, whatever
      order either database returns its rows in. */
  lemma ObservationDiffIgnoresIds(json: Json, new': Db, old': Db, new2: Db, old2: Db, r: Renaming, s: Renaming,
                                  n: seq<Record>, o: seq<Record>, n2: seq<Record>, o2: seq<Record>)
    requires Renamed(new', new2, r) && Renamed(old', old2, s)
    requires Lists(n, Keyed(new')) && Lists(o, Keyed(old')) && Lists(n2, Keyed(new2)) && Lists(o2, Keyed(old2))
    ensures FullDiff(json, o, n) == FullDiff(json, o2, n2)
  {
    KeyedCarried(new', new2, r);
    KeyedCarried(old', old2, s);
    hide Renamed, Keyed, FullDiff, Lists, SameRows;
    SameLists(n, n2, Keyed(new'), Keyed(new2));
    SameLists(o, o2, Keyed(old'), Keyed(old2));
    PermutationInvariance(json, o, n, o2, n2);
  }
}
