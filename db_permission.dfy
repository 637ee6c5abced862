/** `mssql_db_permission`: reconcile database-scope permissions of one
    database principal. Statements run after `USE [database]`, and the reader
    considers only rows of class `DATABASE`. */
module DbPermission {
  import opened Common
  import opened Grants
  import opened Catalog
  import opened PermissionReader
  import opened Reconcile
  import opened MssqlModuleBase

  /** The module's options after parsing (`state` defaults to `grant`). */
  datatype DbPermissionParams = DbPermissionParams(
    principal: string, database: string, permissions: seq<string>, state: GrantState)

  /** `validate_params`: at least one permission, then the database must exist,
      then the principal must exist in it. */
  function ValidateParams(c: Catalog, p: DbPermissionParams): (r: Option<ModuleError>)
    ensures r.None? <==> |p.permissions| > 0 && p.database in c.databases
                         && p.principal in c.databases[p.database].principals
    ensures r == Some(EmptyPermissions) <==> p.permissions == []
    ensures r == Some(NoDatabase(p.database)) <==> p.permissions != [] && p.database !in c.databases
    ensures r.Some? ==> r.value in {EmptyPermissions, NoDatabase(p.database), NoDatabasePrincipal(p.principal)}
  {
    if |p.permissions| < 1 then Some(EmptyPermissions)
    else if p.database !in c.databases then Some(NoDatabase(p.database))
    else if p.principal !in c.databases[p.database].principals then Some(NoDatabasePrincipal(p.principal))
    else None
  }

  /** `run_module`: validation comes before any read or change. */
  method RunModule(m: MssqlModule, s: Session, p: DbPermissionParams, conn: Handle, cursor: Handle)
    returns (o: Outcome<Report>)
    modifies m, s
    ensures !o.Crash?
    ensures o.Fail? <==> ValidateParams(old(s.catalog), p).Some?
    ensures o.Fail? ==> Some(o.error) == ValidateParams(old(s.catalog), p) && m.failure == Some(o.error)
    ensures o.Fail? ==> s.catalog == old(s.catalog) && s.issued == old(s.issued)
    ensures o.Done? ==> Readable(old(s.catalog), OnDatabase(p.database))
    ensures o.Done? ==>
      o.value == ReportOf(ReadAll(old(s.catalog), p.principal, OnDatabase(p.database), p.permissions), p.state)
    ensures o.Done? && m.checkMode ==> s.catalog == old(s.catalog) && s.issued == old(s.issued)
    ensures o.Done? && !m.checkMode ==>
      s.issued == old(s.issued) + StatementsFor(p.principal, OnDatabase(p.database),
                                                ReadAll(old(s.catalog), p.principal, OnDatabase(p.database), p.permissions), p.state)
    ensures o.Done? && !m.checkMode ==>
      s.catalog == ApplyAll(old(s.catalog), StatementsFor(p.principal, OnDatabase(p.database),
                                                          ReadAll(old(s.catalog), p.principal, OnDatabase(p.database), p.permissions), p.state))
    ensures o.Done? ==> m.failure == old(m.failure)
    ensures m.conn == None && m.cursor == None
  {
    m.InitializeClient(conn, cursor);
    var error := ValidateParams(s.catalog, p);
    if error.Some? {
      m.HandleError(error);
      return Fail(error.value);
    }
    var report := ReadReconcileClose(m, s, p.principal, OnDatabase(p.database), p.permissions, p.state);
    return Done(report);
  }

  /** Every statement a run issues names the module's database, so each is
      prefixed with `USE [database]`. */
  lemma {:induction false} StatementsUseDatabase(principal: string, database: string, entries: seq<Entry>, desired: GrantState)
    ensures forall st :: st in StatementsFor(principal, OnDatabase(database), entries, desired) ==>
      st.Permission? && st.stmt.target == OnDatabase(database) && st.stmt.principal == principal
  {
    if entries != [] {
      StatementsUseDatabase(principal, database, entries[..|entries| - 1], desired);
    }
  }

  /** A second run with the same options, from the state a live run left,
      passes validation again, reports no change and issues nothing. */
  lemma RunTwiceIsNoOp(c: Catalog, p: DbPermissionParams)
    requires ValidateParams(c, p).None?
    requires forall x :: x in p.permissions ==> IsIdentifier(x)
    ensures var after := ApplyAll(c, StatementsFor(p.principal, OnDatabase(p.database),
                                                   ReadAll(c, p.principal, OnDatabase(p.database), p.permissions), p.state));
      && ValidateParams(after, p).None?
      && !ReportOf(ReadAll(after, p.principal, OnDatabase(p.database), p.permissions), p.state).changed
      && StatementsFor(p.principal, OnDatabase(p.database), ReadAll(after, p.principal, OnDatabase(p.database), p.permissions), p.state) == []
  {
    var t := OnDatabase(p.database);
    var entries := ReadAll(c, p.principal, t, p.permissions);
    var sts := StatementsFor(p.principal, t, entries, p.state);
    RerunIsNoOp(c, p.principal, t, p.permissions, p.state);
    StatementsForArePermissions(p.principal, t, entries, p.state);
    PermissionStatementsKeepPrincipals(c, sts);
  }
}
