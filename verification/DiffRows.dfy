/** What the natural-key and structural comparisons report, said of the rows the
    two databases hold. */
module DiffRows {
  import opened Wrappers
  import opened RowIds

  // ---- Added and removed rows ----

  /** A row is on its side alone when no row of the other side has its key; so a
      database differs from itself in nothing. */
  lemma OneSided(rows: map<int, Row>, others: map<int, Row>, key: Row -> Row)
    ensures forall k :: k in Only(rows, others, key) <==>
              k in rows && forall j | j in others :: key(others[j]) != key(rows[k])
    ensures forall k | k in Only(rows, others, key) :: Only(rows, others, key)[k] == rows[k]
    ensures Only(rows, rows, key) == map[]
  {
    forall k | k in rows ensures k !in Only(rows, rows, key) {}
  }

  ghost function PathOf(db: Db, b: int): string
    requires b in db.binaries && db.binaries[b].fileId in db.files
  {
    db.files[db.binaries[b].fileId]
  }

  ghost predicate HasPath(db: Db, b: int) { b in db.binaries && db.binaries[b].fileId in db.files }

  ghost function BinaryRow(path: string, b: Binary): Row { [Some(path), b.bundle, b.executable] }

  lemma BinaryRowKey(path: string, b: Binary)
    ensures Binaries.Key(BinaryRow(path, b)) == [Some(path)]
  {
  }

  lemma BinariesHeld(db: Db)
    ensures forall k :: k in Binaries.Rows(db) <==> HasPath(db, k)
    ensures forall k | HasPath(db, k) :: Binaries.Rows(db)[k] == BinaryRow(PathOf(db, k), db.binaries[k])
  {
  }

  /** Binaries compare by their file's path alone: one is added exactly when no
      binary on the other side has its path, whatever bundle or name it has. */
  lemma BinariesByPath(new': Db, old': Db, b: int)
    ensures var added := Only(Binaries.Rows(new'), Binaries.Rows(old'), Binaries.Key);
            (b in added <==> HasPath(new', b) && forall o | HasPath(old', o) :: PathOf(old', o) != PathOf(new', b)) &&
            (b in added ==> added[b] == BinaryRow(PathOf(new', b), new'.binaries[b]))
  {
    var (rows, others) := (Binaries.Rows(new'), Binaries.Rows(old'));
    OneSided(rows, others, Binaries.Key);
    BinariesHeld(new');
    BinariesHeld(old');
    hide Only, BinaryRows, BinaryRow, Table.Key;
    if HasPath(new', b) {
      BinaryRowKey(PathOf(new', b), new'.binaries[b]);
      forall o | HasPath(old', o)
        ensures Binaries.Key(others[o]) == Binaries.Key(rows[b]) <==> PathOf(old', o) == PathOf(new', b)
      {
        BinaryRowKey(PathOf(old', o), old'.binaries[o]);
      }
    }
  }

  ghost predicate Held(db: Db, e: int) { e in db.entitlements && db.entitlements[e].binaryId in db.binaries }

  ghost function Holding(db: Db, e: int): (Option<string>, string, string)
    requires Held(db, e)
  {
    (db.binaries[db.entitlements[e].binaryId].bundle, db.entitlements[e].key, db.entitlements[e].value)
  }

  ghost function HolderRow(h: (Option<string>, string, string)): Row { [h.0, Some(h.1), Some(h.2)] }

  lemma HolderRowSame(h: (Option<string>, string, string), g: (Option<string>, string, string))
    ensures HolderRow(h) == HolderRow(g) <==> h == g
  {
    EqualRows(HolderRow(h), HolderRow(g), 3);
    if HolderRow(h) == HolderRow(g) { assert forall i | 0 <= i < 3 :: HolderRow(h)[i] == HolderRow(g)[i]; }
  }

  lemma EntitlementsHeld(db: Db)
    ensures forall k :: k in Entitlements.Rows(db) <==> Held(db, k)
    ensures forall k | Held(db, k) :: Entitlements.Rows(db)[k] == HolderRow(Holding(db, k))
  {
  }

  /** Entitlements compare by their owner's bundle, their key and their value. */
  lemma EntitlementsByHolder(new': Db, old': Db, e: int)
    ensures var added := Only(Entitlements.Rows(new'), Entitlements.Rows(old'), Entitlements.Key);
            (e in added <==> Held(new', e) && forall o | Held(old', o) :: Holding(old', o) != Holding(new', e)) &&
            (e in added ==> added[e] == HolderRow(Holding(new', e)))
  {
    var (rows, others) := (Entitlements.Rows(new'), Entitlements.Rows(old'));
    OneSided(rows, others, Entitlements.Key);
    EntitlementsHeld(new');
    EntitlementsHeld(old');
    hide Only, EntitlementRows;
    if Held(new', e) {
      forall o | Held(old', o) ensures others[o] == rows[e] <==> Holding(old', o) == Holding(new', e) {
        HolderRowSame(Holding(old', o), Holding(new', e));
      }
    }
  }

  ghost predicate InProfile(db: Db, u: int) { u in db.rules && db.rules[u].profileId in db.profiles }

  /** A rule with its profile's name for the profile's id. */
  ghost function Named(db: Db, u: int): (string, Rule)
    requires InProfile(db, u)
  {
    (db.profiles[db.rules[u].profileId], db.rules[u].(profileId := 0))
  }

  ghost function RuleRow(h: (string, Rule)): Row {
    [Some(h.0), Some(h.1.operation), Some(h.1.action), h.1.filterType, h.1.filterValue]
  }

  lemma RuleRowSame(h: (string, Rule), g: (string, Rule))
    ensures h.1.profileId == g.1.profileId ==> (RuleRow(h) == RuleRow(g) <==> h == g)
  {
    EqualRows(RuleRow(h), RuleRow(g), 5);
    if RuleRow(h) == RuleRow(g) { assert forall i | 0 <= i < 5 :: RuleRow(h)[i] == RuleRow(g)[i]; }
  }

  lemma RulesHeld(db: Db)
    ensures forall k :: k in Rules.Rows(db) <==> InProfile(db, k)
    ensures forall k | InProfile(db, k) :: Rules.Rows(db)[k] == RuleRow(Named(db, k))
  {
  }

  /** Sandbox rules compare by their profile's name and everything else they say. */
  lemma RulesByProfile(new': Db, old': Db, u: int)
    ensures var added := Only(Rules.Rows(new'), Rules.Rows(old'), Rules.Key);
            (u in added <==> InProfile(new', u) && forall o | InProfile(old', o) :: Named(old', o) != Named(new', u)) &&
            (u in added ==> added[u] == RuleRow(Named(new', u)))
  {
    var (rows, others) := (Rules.Rows(new'), Rules.Rows(old'));
    OneSided(rows, others, Rules.Key);
    RulesHeld(new');
    RulesHeld(old');
    hide Only, RuleRows;
    if InProfile(new', u) {
      forall o | InProfile(old', o) ensures others[o] == rows[u] <==> Named(old', o) == Named(new', u) {
        RuleRowSame(Named(old', o), Named(new', u));
      }
    }
  }

  ghost predicate OfDaemon(db: Db, s: int) { s in db.services && db.services[s].daemonId in db.daemons }

  ghost function Served(db: Db, s: int): (string, string)
    requires OfDaemon(db, s)
  {
    (db.daemons[db.services[s].daemonId], db.services[s].name)
  }

  ghost function ServiceRow(h: (string, string)): Row { [Some(h.0), Some(h.1)] }

  lemma ServiceRowSame(h: (string, string), g: (string, string))
    ensures ServiceRow(h) == ServiceRow(g) <==> h == g
  {
    EqualRows(ServiceRow(h), ServiceRow(g), 2);
    if ServiceRow(h) == ServiceRow(g) { assert forall i | 0 <= i < 2 :: ServiceRow(h)[i] == ServiceRow(g)[i]; }
  }

  lemma ServicesHeld(db: Db)
    ensures forall k :: k in Services.Rows(db) <==> OfDaemon(db, k)
    ensures forall k | OfDaemon(db, k) :: Services.Rows(db)[k] == ServiceRow(Served(db, k))
  {
  }

  /** Mach services compare by their daemon's label and their name. */
  lemma ServicesByDaemon(new': Db, old': Db, s: int)
    ensures var added := Only(Services.Rows(new'), Services.Rows(old'), Services.Key);
            (s in added <==> OfDaemon(new', s) && forall o | OfDaemon(old', o) :: Served(old', o) != Served(new', s)) &&
            (s in added ==> added[s] == ServiceRow(Served(new', s)))
  {
    var (rows, others) := (Services.Rows(new'), Services.Rows(old'));
    OneSided(rows, others, Services.Key);
    ServicesHeld(new');
    ServicesHeld(old');
    hide Only, ServiceRows;
    if OfDaemon(new', s) {
      forall o | OfDaemon(old', o) ensures others[o] == rows[s] <==> Served(old', o) == Served(new', s) {
        ServiceRowSame(Served(old', o), Served(new', s));
      }
    }
  }

  lemma EqualRows(p: Row, q: Row, n: nat)
    requires |p| == |q| == n
    ensures p == q <==> forall i | 0 <= i < n :: p[i] == q[i]
  {
  }

  // ---- Moved relationships ----

  ghost predicate OnlyExecutable(db: Db, b: int) {
    b in db.binaries && db.binaries[b].executable.Some? &&
    forall c | c in db.binaries && db.binaries[c].executable == db.binaries[b].executable :: c == b
  }

  /** A binary is reported as moved exactly when its name is the only one of its
      kind on each side and its file's path has changed. */
  lemma ExecutableMoved(new': Db, old': Db, n: int, o: int)
    ensures var moves := Moves(BinaryFile.View(new'), BinaryFile.View(old'));
            ((n, o) in moves <==>
               OnlyExecutable(new', n) && OnlyExecutable(old', o) &&
               new'.binaries[n].executable == old'.binaries[o].executable &&
               HasPath(new', n) && HasPath(old', o) && PathOf(new', n) != PathOf(old', o)) &&
            ((n, o) in moves ==>
               moves[(n, o)] == Move([new'.binaries[n].executable.value], PathOf(old', o), PathOf(new', n)))
  {
    OnlyExecutableAlone(new', n);
    OnlyExecutableAlone(old', o);
    hide Alone;
  }

  lemma OnlyExecutableAlone(db: Db, b: int)
    ensures Alone(BinaryFile.View(db), b) <==> OnlyExecutable(db, b)
  {
    var side := BinaryFile.View(db);
    if b in db.binaries && db.binaries[b].executable.Some? {
      forall c | c in db.binaries
        ensures side[c].name == side[b].name <==> db.binaries[c].executable == db.binaries[b].executable
      {
        if db.binaries[c].executable.Some? {
          assert side[c].name.value[0] == db.binaries[c].executable.value;
          assert side[b].name.value[0] == db.binaries[b].executable.value;
        }
      }
      if Alone(side, b) {
        forall c | c in db.binaries && db.binaries[c].executable == db.binaries[b].executable ensures c == b {
          assert c in side;
        }
      }
    }
  }

  ghost predicate OnlyRule(db: Db, u: int) {
    u in db.rules &&
    forall v | v in db.rules && db.rules[v].operation == db.rules[u].operation &&
               db.rules[v].action == db.rules[u].action :: v == u
  }

  /** A sandbox rule is reassigned exactly when its operation and action name one
      rule on each side, of profiles with different names. */
  lemma RuleReassigned(new': Db, old': Db, n: int, o: int)
    ensures var moves := Moves(SandboxProfile.View(new'), SandboxProfile.View(old'));
            ((n, o) in moves <==>
               OnlyRule(new', n) && OnlyRule(old', o) && new'.rules[n].operation == old'.rules[o].operation &&
               new'.rules[n].action == old'.rules[o].action && InProfile(new', n) && InProfile(old', o) &&
               Named(new', n).0 != Named(old', o).0) &&
            ((n, o) in moves ==>
               moves[(n, o)] == Move([new'.rules[n].operation, new'.rules[n].action],
                                     Named(old', o).0, Named(new', n).0))
  {
    OnlyRuleAlone(new', n);
    OnlyRuleAlone(old', o);
    hide Alone;
    if n in new'.rules && o in old'.rules {
      PairsEqual(new'.rules[n].operation, new'.rules[n].action, old'.rules[o].operation, old'.rules[o].action);
    }
  }

  lemma PairsEqual(a: string, b: string, c: string, d: string)
    ensures [a, b] == [c, d] <==> a == c && b == d
  {
    assert [a, b][0] == a && [a, b][1] == b && [c, d][0] == c && [c, d][1] == d;
  }

  lemma OnlyRuleAlone(db: Db, u: int)
    ensures Alone(SandboxProfile.View(db), u) <==> OnlyRule(db, u)
  {
    var side := SandboxProfile.View(db);
    if u in db.rules {
      forall v | v in db.rules
        ensures side[v].name == side[u].name <==>
                  db.rules[v].operation == db.rules[u].operation && db.rules[v].action == db.rules[u].action
      {
        PairsEqual(db.rules[v].operation, db.rules[v].action, db.rules[u].operation, db.rules[u].action);
      }
      if Alone(side, u) {
        forall v | v in db.rules && db.rules[v].operation == db.rules[u].operation &&
                   db.rules[v].action == db.rules[u].action ensures v == u
        {
          assert v in side;
        }
      }
    }
  }

  ghost predicate OnlyGrant(db: Db, e: int) {
    e in db.entitlements &&
    forall f | f in db.entitlements && db.entitlements[f].key == db.entitlements[e].key &&
               db.entitlements[f].value == db.entitlements[e].value :: f == e
  }

  /** The identity of a binary: its bundle, or else its name, or else its path. */
  ghost predicate Identifies(db: Db, b: int, id: string) {
    HasPath(db, b) &&
    var binary := db.binaries[b];
    (binary.bundle == Some(id) ||
     (binary.bundle == None && binary.executable == Some(id)) ||
     (binary.bundle == None && binary.executable == None && id == "path:" + PathOf(db, b)))
  }

  lemma OwnerIdentity(db: Db, b: int, id: string)
    ensures Owner(db, b) == Some(id) <==> Identifies(db, b, id)
  {
  }

  /** An entitlement is reassigned exactly when its key and value name one on each
      side, held by binaries of different identity. */
  lemma GrantReassigned(new': Db, old': Db, n: int, o: int, newId: string, oldId: string)
    requires n in new'.entitlements && Identifies(new', new'.entitlements[n].binaryId, newId)
    requires o in old'.entitlements && Identifies(old', old'.entitlements[o].binaryId, oldId)
    ensures var moves := Moves(EntitlementOwner.View(new'), EntitlementOwner.View(old'));
            ((n, o) in moves <==>
               OnlyGrant(new', n) && OnlyGrant(old', o) && new'.entitlements[n].key == old'.entitlements[o].key &&
               new'.entitlements[n].value == old'.entitlements[o].value && newId != oldId) &&
            ((n, o) in moves ==>
               moves[(n, o)] == Move([new'.entitlements[n].key, new'.entitlements[n].value], oldId, newId))
  {
    OwnerIdentity(new', new'.entitlements[n].binaryId, newId);
    OwnerIdentity(old', old'.entitlements[o].binaryId, oldId);
    OnlyGrantAlone(new', n);
    OnlyGrantAlone(old', o);
    hide Alone, Identifies, Owner;
    var (p, q) := (new'.entitlements[n], old'.entitlements[o]);
    PairsEqual(p.key, p.value, q.key, q.value);
  }

  lemma OnlyGrantAlone(db: Db, e: int)
    ensures Alone(EntitlementOwner.View(db), e) <==> OnlyGrant(db, e)
  {
    var side := EntitlementOwner.View(db);
    hide Owner;
    if e in db.entitlements {
      forall f | f in db.entitlements
        ensures side[f].name == side[e].name <==>
                  db.entitlements[f].key == db.entitlements[e].key &&
                  db.entitlements[f].value == db.entitlements[e].value
      {
        PairsEqual(db.entitlements[f].key, db.entitlements[f].value, db.entitlements[e].key, db.entitlements[e].value);
      }
      if Alone(side, e) {
        forall f | f in db.entitlements && db.entitlements[f].key == db.entitlements[e].key &&
                   db.entitlements[f].value == db.entitlements[e].value ensures f == e
        {
          assert f in side;
        }
      }
    }
  }

  /** A binary that only moves keeps its entitlements: with the same bundle and
      name, one of them there, the path does not matter. */
  lemma MoveKeepsGrants(new': Db, old': Db, n: int, o: int)
    requires HasPath(new', n) && HasPath(old', o)
    requires new'.binaries[n].bundle == old'.binaries[o].bundle
    requires new'.binaries[n].executable == old'.binaries[o].executable
    ensures new'.binaries[n].bundle.Some? || new'.binaries[n].executable.Some? ==> Owner(new', n) == Owner(old', o)
    ensures new'.binaries[n].bundle.None? && new'.binaries[n].executable.None? ==>
              (Owner(new', n) == Owner(old', o) <==> PathOf(new', n) == PathOf(old', o))
  {
    var (p, q) := ("path:" + PathOf(new', n), "path:" + PathOf(old', o));
    assert p[5..] == PathOf(new', n) && q[5..] == PathOf(old', o);
  }
}
