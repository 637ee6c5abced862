/** `mssql_db_user`: make a database user for a server login present or
    absent. The result carries only `changed`. */
module DbUser {
  import opened Common
  import opened Catalog
  import opened MssqlModuleBase

  /** The module's options after parsing (`state` defaults to `present`). */
  datatype DbUserParams = DbUserParams(name: string, database: string, state: Presence)

  /** `validate_params`: the database must exist. */
  function ValidateParams(c: Catalog, p: DbUserParams): (r: Option<ModuleError>)
    ensures r.None? <==> p.database in c.databases
    ensures r.Some? ==> r.value == NoDatabase(p.database)
  {
    if p.database !in c.databases then Some(NoDatabase(p.database)) else None
  }

  /** `get_login`: some server principal has the name. */
  predicate LoginExists(c: Catalog, name: string) {
    name in c.serverPrincipals
  }

  /** `get_user`: some principal of the database has the name. */
  predicate UserExists(c: Catalog, database: string, name: string)
    requires database in c.databases
  {
    name in c.databases[database].principals
  }

  /** `ensure_present`: fails without a server login; `changed` exactly when
      the user was missing; a live run leaves the user in place. */
  function PresentPlan(c: Catalog, database: string, name: string, checkMode: bool): (r: Plan<bool>)
    requires database in c.databases
    ensures !r.outcome.Crash?
    ensures r.outcome.Fail? <==> !LoginExists(c, name)
    ensures r.outcome.Fail? ==> r.outcome.error == NoServerLogin(name) && r.statements == []
    ensures r.outcome.Done? ==> (r.outcome.value <==> !UserExists(c, database, name))
    ensures checkMode || r.outcome != Done(true) ==> r.statements == []
    ensures !checkMode && r.outcome.Done? ==> UserExists(ApplyAll(c, r.statements), database, name)
  {
    if !LoginExists(c, name) then Plan(Fail(NoServerLogin(name)), [])
    else if UserExists(c, database, name) then Plan(Done(false), [])
    else Plan(Done(true), if checkMode then [] else [CreateUser(database, name)])
  }

  /** `ensure_absent`: `changed` exactly when the user existed; a live run
      leaves it gone. */
  function AbsentPlan(c: Catalog, database: string, name: string, checkMode: bool): (r: Plan<bool>)
    requires database in c.databases
    ensures r.outcome.Done?
    ensures r.outcome.value <==> UserExists(c, database, name)
    ensures checkMode || r.outcome != Done(true) ==> r.statements == []
    ensures !checkMode ==> !UserExists(ApplyAll(c, r.statements), database, name)
  {
    if !UserExists(c, database, name) then Plan(Done(false), [])
    else Plan(Done(true), if checkMode then [] else [DropUser(database, name)])
  }

  /** The whole module: validation, then one of the two. */
  function RunPlan(c: Catalog, p: DbUserParams, checkMode: bool): (r: Plan<bool>)
    ensures ValidateParams(c, p).Some? ==> r == Plan(Fail(NoDatabase(p.database)), [])
  {
    if ValidateParams(c, p).Some? then Plan(Fail(ValidateParams(c, p).value), [])
    else if p.state.Present? then PresentPlan(c, p.database, p.name, checkMode)
    else AbsentPlan(c, p.database, p.name, checkMode)
  }

  /** Check mode reports what a live run from the same state reports, and
      changes nothing. */
  lemma CheckModeMatchesLiveRun(c: Catalog, p: DbUserParams)
    ensures RunPlan(c, p, true).outcome == RunPlan(c, p, false).outcome
    ensures RunPlan(c, p, true).statements == []
  {
  }

  /** Running the module twice: the second run reports no change and issues
      nothing, whichever state was asked for. */
  lemma RunTwiceIsNoOp(c: Catalog, p: DbUserParams, checkMode: bool)
    requires RunPlan(c, p, false).outcome.Done?
    ensures var after := ApplyAll(c, RunPlan(c, p, false).statements);
      RunPlan(after, p, checkMode) == Plan(Done(false), [])
  {
    var after := ApplyAll(c, RunPlan(c, p, false).statements);
    assert after.databases.Keys == c.databases.Keys;
    if p.state.Present? {
      var sts := RunPlan(c, p, false).statements;
      if sts != [] {
        assert sts == [CreateUser(p.database, p.name)] && sts[1..] == [];
        assert ApplyAll(Apply(c, sts[0]), []) == Apply(c, sts[0]);
        assert after == Apply(c, CreateUser(p.database, p.name));
      }
      assert LoginExists(after, p.name);
    }
  }

  method EnsurePresent(m: MssqlModule, s: Session, database: string, name: string) returns (o: Outcome<bool>)
    requires database in s.catalog.databases
    modifies m, s
    ensures o == PresentPlan(old(s.catalog), database, name, m.checkMode).outcome
    ensures s.issued == old(s.issued) + PresentPlan(old(s.catalog), database, name, m.checkMode).statements
    ensures s.catalog == ApplyAll(old(s.catalog), PresentPlan(old(s.catalog), database, name, m.checkMode).statements)
    ensures o.Fail? ==> m.State() == Closed(old(m.State())) && m.failure == Some(o.error)
    ensures o.Done? ==> m.State() == old(m.State()) && m.failure == old(m.failure)
  {
    if !LoginExists(s.catalog, name) {
      m.HandleError(Some(NoServerLogin(name)));
      return Fail(NoServerLogin(name));
    }
    if UserExists(s.catalog, database, name) {
      return Done(false);
    }
    if !m.checkMode {
      s.Execute(CreateUser(database, name));
      assert ApplyAll(old(s.catalog), [CreateUser(database, name)]) == s.catalog;
    }
    return Done(true);
  }

  method EnsureAbsent(m: MssqlModule, s: Session, database: string, name: string) returns (o: Outcome<bool>)
    requires database in s.catalog.databases
    modifies s
    ensures o == AbsentPlan(old(s.catalog), database, name, m.checkMode).outcome
    ensures s.issued == old(s.issued) + AbsentPlan(old(s.catalog), database, name, m.checkMode).statements
    ensures s.catalog == ApplyAll(old(s.catalog), AbsentPlan(old(s.catalog), database, name, m.checkMode).statements)
  {
    if !UserExists(s.catalog, database, name) {
      return Done(false);
    }
    if !m.checkMode {
      s.Execute(DropUser(database, name));
      assert ApplyAll(old(s.catalog), [DropUser(database, name)]) == s.catalog;
    }
    return Done(true);
  }

  /** `run_module`. */
  method RunModule(m: MssqlModule, s: Session, p: DbUserParams, conn: Handle, cursor: Handle)
    returns (o: Outcome<bool>)
    modifies m, s
    ensures o == RunPlan(old(s.catalog), p, m.checkMode).outcome
    ensures s.issued == old(s.issued) + RunPlan(old(s.catalog), p, m.checkMode).statements
    ensures s.catalog == ApplyAll(old(s.catalog), RunPlan(old(s.catalog), p, m.checkMode).statements)
    ensures o.Fail? ==> m.failure == Some(o.error)
    ensures o.Done? ==> m.failure == old(m.failure)
    ensures m.conn == None && m.cursor == None
  {
    m.InitializeClient(conn, cursor);
    var error := ValidateParams(s.catalog, p);
    if error.Some? {
      m.HandleError(error);
      return Fail(error.value);
    }
    if p.state.Present? {
      o := EnsurePresent(m, s, p.database, p.name);
    } else {
      o := EnsureAbsent(m, s, p.database, p.name);
    }
    if !o.Fail? {
      m.CloseClientSession();
    }
  }
}
