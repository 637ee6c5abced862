/** `mssql_server_permission`: reconcile server-scope permissions of one
    server principal. Statements carry no `USE [database]` prefix. */
module ServerPermission {
  import opened Common
  import opened Grants
  import opened Catalog
  import opened PermissionReader
  import opened Reconcile
  import opened MssqlModuleBase

  /** The module's options after parsing (`state` defaults to `grant`). */
  datatype ServerPermissionParams = ServerPermissionParams(
    principal: string, permissions: seq<string>, state: GrantState)

  /** `validate_params`: at least one permission, then the principal must be a
      server principal. */
  function ValidateParams(c: Catalog, p: ServerPermissionParams): (r: Option<ModuleError>)
    ensures r.None? <==> |p.permissions| > 0 && p.principal in c.serverPrincipals
    ensures r == Some(EmptyPermissions) <==> p.permissions == []
    ensures r.Some? ==> r.value == EmptyPermissions || r.value == NoServerPrincipal(p.principal)
  {
    if |p.permissions| < 1 then Some(EmptyPermissions)
    else if p.principal !in c.serverPrincipals then Some(NoServerPrincipal(p.principal))
    else None
  }

  /** `run_module`: a failed validation closes the session and fails before
      anything is read or changed; otherwise the permissions are reconciled. */
  method RunModule(m: MssqlModule, s: Session, p: ServerPermissionParams, conn: Handle, cursor: Handle)
    returns (o: Outcome<Report>)
    modifies m, s
    ensures !o.Crash?
    ensures o.Fail? <==> ValidateParams(old(s.catalog), p).Some?
    ensures o.Fail? ==> Some(o.error) == ValidateParams(old(s.catalog), p) && m.failure == Some(o.error)
    ensures o.Fail? ==> s.catalog == old(s.catalog) && s.issued == old(s.issued)
    ensures o.Done? ==> o.value == ReportOf(ReadAll(old(s.catalog), p.principal, OnServer, p.permissions), p.state)
    ensures o.Done? && m.checkMode ==> s.catalog == old(s.catalog) && s.issued == old(s.issued)
    ensures o.Done? && !m.checkMode ==>
      s.issued == old(s.issued) + StatementsFor(p.principal, OnServer, ReadAll(old(s.catalog), p.principal, OnServer, p.permissions), p.state)
    ensures o.Done? && !m.checkMode ==>
      s.catalog == ApplyAll(old(s.catalog), StatementsFor(p.principal, OnServer, ReadAll(old(s.catalog), p.principal, OnServer, p.permissions), p.state))
    ensures o.Done? ==> m.failure == old(m.failure)
    ensures m.conn == None && m.cursor == None
  {
    m.InitializeClient(conn, cursor);
    var error := ValidateParams(s.catalog, p);
    if error.Some? {
      m.HandleError(error);
      return Fail(error.value);
    }
    var report := ReadReconcileClose(m, s, p.principal, OnServer, p.permissions, p.state);
    return Done(report);
  }

  /** A second run with the same options, from the state a live run left,
      reports no change and issues nothing. */
  lemma RunTwiceIsNoOp(c: Catalog, p: ServerPermissionParams)
    requires ValidateParams(c, p).None?
    requires forall x :: x in p.permissions ==> IsIdentifier(x)
    ensures var after := ApplyAll(c, StatementsFor(p.principal, OnServer, ReadAll(c, p.principal, OnServer, p.permissions), p.state));
      && ValidateParams(after, p).None?
      && !ReportOf(ReadAll(after, p.principal, OnServer, p.permissions), p.state).changed
      && StatementsFor(p.principal, OnServer, ReadAll(after, p.principal, OnServer, p.permissions), p.state) == []
  {
    var entries := ReadAll(c, p.principal, OnServer, p.permissions);
    var sts := StatementsFor(p.principal, OnServer, entries, p.state);
    RerunIsNoOp(c, p.principal, OnServer, p.permissions, p.state);
    StatementsForArePermissions(p.principal, OnServer, entries, p.state);
    PermissionStatementsKeepPrincipals(c, sts);
  }

  /** The readings of the worked server scenario. */
  lemma ScenarioReads(c: Catalog, principal: string)
    requires ServerPermissionState(c, principal, "connect_sql") == Grant
    requires ServerPermissionState(c, principal, "view_server_state") == Deny
    ensures ReadAll(c, principal, OnServer, ["connect_sql", "view_server_state"])
         == [Entry("connect_sql", Grant), Entry("view_server_state", Deny)]
  {
    var perms := ["connect_sql", "view_server_state"];
    assert perms[..1] == ["connect_sql"] && perms[..1][..0] == [];
    assert Dedup(perms) == perms;
  }

  /** The report and statements of the worked server scenario: `connect_sql`
      granted and `view_server_state` denied, desired `grant_with_grant_option`. */
  lemma ScenarioPlan(principal: string)
    ensures var entries := [Entry("connect_sql", Grant), Entry("view_server_state", Deny)];
      && ReportOf(entries, GrantWithGrantOption) == Report(true,
           Some([Entry("connect_sql", Grant), Entry("view_server_state", Deny)]),
           Some([Entry("connect_sql", GrantWithGrantOption), Entry("view_server_state", GrantWithGrantOption)]))
      && StatementsFor(principal, OnServer, entries, GrantWithGrantOption) == [
           Permission(PermissionStatement(GrantVerb, "CONNECT SQL", principal, OnServer, false, true)),
           Permission(PermissionStatement(GrantVerb, "VIEW SERVER STATE", principal, OnServer, false, true))]
  {
    var a := Entry("connect_sql", Grant);
    var b := Entry("view_server_state", Deny);
    Snoc(principal, OnServer, [], a, GrantWithGrantOption);
    assert [] + [a] == [a];
    Snoc(principal, OnServer, [a], b, GrantWithGrantOption);
    assert [a] + [b] == [a, b];
    assert Changed([a, b], GrantWithGrantOption);
    assert PreviousEntries([a, b]) == [a, b];
    assert CurrentEntries([a, b], GrantWithGrantOption)
        == [Entry("connect_sql", GrantWithGrantOption), Entry("view_server_state", GrantWithGrantOption)];
    CanonicalExample();
    assert Transition(principal, OnServer, "connect_sql", Grant, GrantWithGrantOption)
        == Some(PermissionStatement(GrantVerb, "CONNECT SQL", principal, OnServer, false, true));
    assert Transition(principal, OnServer, "view_server_state", Deny, GrantWithGrantOption)
        == Some(PermissionStatement(GrantVerb, "VIEW SERVER STATE", principal, OnServer, false, true));
  }
}
