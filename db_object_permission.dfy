/** `mssql_db_object_permission`: reconcile object-scope permissions of one
    database principal on one object. Statements run after `USE [database]`
    and name `ON OBJECT::schema.object`; without a `schema` option the object
    name must match exactly one object, whose schema is then looked up. */
module DbObjectPermission {
  import opened Common
  import opened Grants
  import opened Catalog
  import opened PermissionReader
  import opened Reconcile
  import opened MssqlModuleBase

  /** The module's options after parsing (`state` defaults to `grant`). */
  datatype DbObjectPermissionParams = DbObjectPermissionParams(
    principal: string, database: string, schema: Option<string>, obj: string,
    permissions: seq<string>, state: GrantState)

  /** The rows of `SELECT name FROM sys.objects WHERE name = obj`, in catalog order. */
  function MatchingObjects(objects: seq<ObjectName>, obj: string): (r: seq<ObjectName>)
    ensures forall o :: o in r <==> o in objects && o.name == obj
    ensures |r| <= |objects|
  {
    if objects == [] then []
    else if objects[0].name == obj then [objects[0]] + MatchingObjects(objects[1..], obj)
    else MatchingObjects(objects[1..], obj)
  }

  /** Two catalog entries with the name make at least two matches. */
  lemma {:induction false} TwoMatches(objects: seq<ObjectName>, obj: string, i: nat, j: nat)
    requires i < j < |objects|
    requires objects[i].name == obj && objects[j].name == obj
    ensures |MatchingObjects(objects, obj)| >= 2
  {
    var t := objects[1..];
    if i == 0 {
      assert t[j - 1] == objects[j] && t[j - 1] in t;
      assert objects[j] in MatchingObjects(t, obj);
    } else {
      TwoMatches(t, obj, i - 1, j - 1);
    }
  }

  /** `validate_params`: a permission, the database and the principal as in
      the database module; then without a schema exactly one object must
      carry the name, and with a schema the object must exist in it. */
  function ValidateParams(c: Catalog, p: DbObjectPermissionParams): (r: Option<ModuleError>)
    ensures r.None? <==>
      && |p.permissions| > 0
      && p.database in c.databases
      && p.principal in c.databases[p.database].principals
      && (p.schema.None? ==> |MatchingObjects(c.databases[p.database].objects, p.obj)| == 1)
      && (p.schema.Some? ==> ObjectName(p.schema.value, p.obj) in c.databases[p.database].objects)
    ensures r == Some(EmptyPermissions) <==> p.permissions == []
    ensures r == Some(NoDatabase(p.database)) <==> p.permissions != [] && p.database !in c.databases
    ensures r == Some(NoDatabasePrincipal(p.principal)) <==>
      p.permissions != [] && p.database in c.databases && p.principal !in c.databases[p.database].principals
    ensures r == Some(NoObjectInSchema(p.obj, p.schema.GetOr(""))) <==>
      && p.permissions != [] && p.database in c.databases
      && p.principal in c.databases[p.database].principals
      && p.schema.Some? && ObjectName(p.schema.value, p.obj) !in c.databases[p.database].objects
    ensures r.Some? && p.schema.None? && p.permissions != [] && p.database in c.databases
            && p.principal in c.databases[p.database].principals ==>
      (r.value == NoObject(p.obj) <==> MatchingObjects(c.databases[p.database].objects, p.obj) == []) &&
      (r.value == AmbiguousObject(p.obj) <==> |MatchingObjects(c.databases[p.database].objects, p.obj)| > 1)
  {
    if |p.permissions| < 1 then Some(EmptyPermissions)
    else if p.database !in c.databases then Some(NoDatabase(p.database))
    else
      var d := c.databases[p.database];
      if p.principal !in d.principals then Some(NoDatabasePrincipal(p.principal))
      else if p.schema.None? then
        var count := |MatchingObjects(d.objects, p.obj)|;
        if count == 0 then Some(NoObject(p.obj))
        else if count > 1 then Some(AmbiguousObject(p.obj))
        else None
      else if ObjectName(p.schema.value, p.obj) !in d.objects then Some(NoObjectInSchema(p.obj, p.schema.value))
      else None
  }

  /** `resolve_schema`: the schema of the first object with the name;
      `result['schema_name']` on no row raises `TypeError`. */
  function ResolveSchema(d: Database, obj: string): (r: Outcome<string>)
    ensures !r.Fail?
    ensures r.Crash? <==> forall o :: o in d.objects ==> o.name != obj
    ensures r.Crash? ==> r.exception == TypeError
    ensures r.Done? ==> ObjectName(r.value, obj) in d.objects
    ensures r.Done? ==> MatchingObjects(d.objects, obj) != [] && r.value == MatchingObjects(d.objects, obj)[0].schema
    ensures |MatchingObjects(d.objects, obj)| == 1 ==>
      forall o :: o in d.objects && o.name == obj ==> r == Done(o.schema)
  {
    var matches := MatchingObjects(d.objects, obj);
    if matches == [] then Crash(TypeError)
    else
      assert matches[0] in matches;
      if |matches| == 1 then
        assert forall o :: o in matches ==> o == matches[0];
        Done(matches[0].schema)
      else Done(matches[0].schema)
  }

  /** The schema `run_module` uses: the option when given, else the resolved one. */
  function ChosenSchema(d: Database, p: DbObjectPermissionParams): (r: Outcome<string>)
    ensures p.schema.Some? ==> r == Done(p.schema.value)
  {
    if p.schema.None? then ResolveSchema(d, p.obj) else Done(p.schema.value)
  }

  /** After validation the schema is always found and names an existing
      object; without the option it is that of the only object so named. */
  lemma ValidatedSchema(c: Catalog, p: DbObjectPermissionParams)
    requires ValidateParams(c, p).None?
    ensures ChosenSchema(c.databases[p.database], p).Done?
    ensures ObjectName(ChosenSchema(c.databases[p.database], p).value, p.obj) in c.databases[p.database].objects
    ensures p.schema.None? ==> forall o :: o in c.databases[p.database].objects && o.name == p.obj ==>
      ChosenSchema(c.databases[p.database], p).value == o.schema
  {
    var d := c.databases[p.database];
    if p.schema.None? {
      var matches := MatchingObjects(d.objects, p.obj);
      assert matches[0] in matches;
    }
  }

  /** The target of a validated run. */
  function TargetOf(c: Catalog, p: DbObjectPermissionParams): (t: Target)
    requires ValidateParams(c, p).None?
    ensures t.OnObject? && t.database == p.database && t.obj == p.obj
    ensures Readable(c, t)
  {
    ValidatedSchema(c, p);
    OnObject(p.database, ChosenSchema(c.databases[p.database], p).value, p.obj)
  }

  /** `run_module`: validation and schema resolution come before any
      permission is read or changed. */
  method RunModule(m: MssqlModule, s: Session, p: DbObjectPermissionParams, conn: Handle, cursor: Handle)
    returns (o: Outcome<Report>)
    modifies m, s
    ensures !o.Crash?
    ensures o.Fail? <==> ValidateParams(old(s.catalog), p).Some?
    ensures o.Fail? ==> Some(o.error) == ValidateParams(old(s.catalog), p) && m.failure == Some(o.error)
    ensures o.Fail? ==> s.catalog == old(s.catalog) && s.issued == old(s.issued)
    ensures o.Done? ==> (ValidateParams(old(s.catalog), p).None? &&
      o.value == ReportOf(ReadAll(old(s.catalog), p.principal, TargetOf(old(s.catalog), p), p.permissions), p.state))
    ensures o.Done? && m.checkMode ==> s.catalog == old(s.catalog) && s.issued == old(s.issued)
    ensures o.Done? && !m.checkMode ==> (ValidateParams(old(s.catalog), p).None? &&
      s.issued == old(s.issued) + StatementsFor(p.principal, TargetOf(old(s.catalog), p),
                                                ReadAll(old(s.catalog), p.principal, TargetOf(old(s.catalog), p), p.permissions), p.state))
    ensures o.Done? && !m.checkMode ==> (ValidateParams(old(s.catalog), p).None? &&
      s.catalog == ApplyAll(old(s.catalog), StatementsFor(p.principal, TargetOf(old(s.catalog), p),
                                                          ReadAll(old(s.catalog), p.principal, TargetOf(old(s.catalog), p), p.permissions), p.state)))
    ensures o.Done? ==> m.failure == old(m.failure)
    ensures m.conn == None && m.cursor == None
  {
    m.InitializeClient(conn, cursor);
    var error := ValidateParams(s.catalog, p);
    if error.Some? {
      m.HandleError(error);
      return Fail(error.value);
    }
    ValidatedSchema(s.catalog, p);
    var schema := ChosenSchema(s.catalog.databases[p.database], p);
    var t := OnObject(p.database, schema.value, p.obj);
    assert t == TargetOf(s.catalog, p);
    var report := ReadReconcileClose(m, s, p.principal, t, p.permissions, p.state);
    return Done(report);
  }

  /** An object name found in two schemas, with no schema given, is rejected
      by validation, so the run fails without a report or a statement. */
  lemma AmbiguousObjectRejected(c: Catalog, p: DbObjectPermissionParams, i: nat, j: nat)
    requires p.schema.None? && p.permissions != []
    requires p.database in c.databases && p.principal in c.databases[p.database].principals
    requires i < j < |c.databases[p.database].objects|
    requires c.databases[p.database].objects[i] == ObjectName("a", p.obj)
    requires c.databases[p.database].objects[j] == ObjectName("b", p.obj)
    ensures ValidateParams(c, p) == Some(AmbiguousObject(p.obj))
  {
    TwoMatches(c.databases[p.database].objects, p.obj, i, j);
  }

  /** A second run with the same options, from the state a live run left,
      validates, resolves the same schema, reports no change and issues nothing. */
  lemma RunTwiceIsNoOp(c: Catalog, p: DbObjectPermissionParams)
    requires ValidateParams(c, p).None?
    requires forall x :: x in p.permissions ==> IsIdentifier(x)
    ensures var t := TargetOf(c, p);
      var after := ApplyAll(c, StatementsFor(p.principal, t, ReadAll(c, p.principal, t, p.permissions), p.state));
      && ValidateParams(after, p).None?
      && TargetOf(after, p) == t
      && !ReportOf(ReadAll(after, p.principal, t, p.permissions), p.state).changed
      && StatementsFor(p.principal, t, ReadAll(after, p.principal, t, p.permissions), p.state) == []
  {
    var t := TargetOf(c, p);
    var entries := ReadAll(c, p.principal, t, p.permissions);
    var sts := StatementsFor(p.principal, t, entries, p.state);
    RerunIsNoOp(c, p.principal, t, p.permissions, p.state);
    StatementsForArePermissions(p.principal, t, entries, p.state);
    PermissionStatementsKeepPrincipals(c, sts);
  }

  /** The as-written and the corrected object readers differ only through
      column-level rows: without them they agree. */
  lemma {:induction false} ReadersAgreeWithoutColumnRows(rows: seq<PermissionRow>, principal: string,
                                                         schema: string, obj: string, permission: string)
    requires forall r :: r in rows && r.securable.ObjectOrColumn? ==> r.securable.column == 0
    ensures FirstMatch(rows, ObjectQuery(principal, schema, obj, permission, false))
         == FirstMatch(rows, ObjectQuery(principal, schema, obj, permission, true))
  {
    if rows != [] {
      var t := rows[1..];
      assert rows == [rows[0]] + t;
      assert forall r :: r in t ==> r in rows;
      ReadersAgreeWithoutColumnRows(t, principal, schema, obj, permission);
      FirstMatchCons(rows[0], t, ObjectQuery(principal, schema, obj, permission, false));
      FirstMatchCons(rows[0], t, ObjectQuery(principal, schema, obj, permission, true));
    }
  }

  /** A database where `clerk` holds `SELECT` on one column of `dbo.orders`
      but not on the table. */
  const ColumnGrantCatalog: Catalog := Catalog(map[], [], map["sales" := Database(
    {"clerk"}, [ObjectName("dbo", "orders")],
    [PermissionRow("clerk", ObjectOrColumn("dbo", "orders", 2), "SELECT", Grant)])])

  /** The reader as written takes the column grant for a table grant, so
      desired `grant` issues nothing and the table stays ungranted; the
      corrected reader sees `revoke` and issues the `GRANT`. */
  lemma ColumnGrantHidesMissingObjectGrant()
    ensures ObjectPermissionStateAsWritten(ColumnGrantCatalog, "sales", "dbo", "orders", "clerk", "select") == Grant
    ensures ObjectPermissionState(ColumnGrantCatalog, "sales", "dbo", "orders", "clerk", "select") == Revoke
    ensures Transition("clerk", OnObject("sales", "dbo", "orders"), "select", Grant, Grant).None?
    ensures Transition("clerk", OnObject("sales", "dbo", "orders"), "select", Revoke, Grant)
         == Some(PermissionStatement(GrantVerb, "SELECT", "clerk", OnObject("sales", "dbo", "orders"), false, false))
  {
    assert CanonicalName("select") == "SELECT";
    var rows := ColumnGrantCatalog.databases["sales"].permissions;
    FirstMatchCons(rows[0], [], ObjectQuery("clerk", "dbo", "orders", "SELECT", false));
    FirstMatchCons(rows[0], [], ObjectQuery("clerk", "dbo", "orders", "SELECT", true));
    assert [rows[0]] + [] == rows;
  }

  /** With the reader as written, asking for `deny` on the column-grant
      database reads `grant` and issues a `DENY` on the table. The column row
      is not one the statement acts on and stays first, so the next run reads
      `grant` again and issues the same `DENY`: the run is never a no-op. The
      corrected reader sees the table's `deny`. */
  lemma ColumnGrantRerunReissuesDeny()
    ensures var t := OnObject("sales", "dbo", "orders");
      var deny := Transition("clerk", t, "select", Grant, Deny);
      var after := Apply(ColumnGrantCatalog, Permission(deny.value));
      && deny == Some(PermissionStatement(DenyVerb, "SELECT", "clerk", t, false, false))
      && ObjectPermissionStateAsWritten(after, "sales", "dbo", "orders", "clerk", "select") == Grant
      && Transition("clerk", t, "select", ObjectPermissionStateAsWritten(after, "sales", "dbo", "orders", "clerk", "select"), Deny) == deny
      && ObjectPermissionState(after, "sales", "dbo", "orders", "clerk", "select") == Deny
  {
    assert CanonicalName("select") == "SELECT";
    var t := OnObject("sales", "dbo", "orders");
    var st := PermissionStatement(DenyVerb, "SELECT", "clerk", t, false, false);
    var column := ColumnGrantCatalog.databases["sales"].permissions[0];
    var denied := PermissionRow("clerk", ObjectOrColumn("dbo", "orders", 0), "SELECT", Deny);
    assert RemoveCovered([column], st) == [column] by {
      assert !Covers(st, column);
      assert [column][1..] == [];
    }
    var rows := Apply(ColumnGrantCatalog, Permission(st)).databases["sales"].permissions;
    assert rows == [column] + [denied];
    FirstMatchCons(column, [denied], ObjectQuery("clerk", "dbo", "orders", "SELECT", false));
    FirstMatchCons(column, [denied], ObjectQuery("clerk", "dbo", "orders", "SELECT", true));
    FirstMatchCons(denied, [], ObjectQuery("clerk", "dbo", "orders", "SELECT", true));
    assert [denied] + [] == [denied];
  }
}
