/** The database server as the modules see it through their session: the
    catalog views they query (server principals and logins, server permissions,
    and per database its principals, objects and permissions) and the effect of
    each statement they execute. Every statement is executed and committed on
    its own; `issued` records them in order. */
module Catalog {
  import opened Common
  import opened Grants

  /** The securable a permission row is attached to; `column` is the catalog's
      `minor_id` (0 for the whole object). */
  datatype Securable =
    | ServerClass
    | DatabaseClass
    | SchemaClass(schema: string)
    | ObjectOrColumn(schema: string, name: string, column: nat)

  /** The catalog's `class_desc` text for a securable. */
  function ClassDesc(s: Securable): (r: string)
    ensures r == "DATABASE" <==> s == DatabaseClass
    ensures r == "OBJECT_OR_COLUMN" <==> s.ObjectOrColumn?
  {
    match s
    case ServerClass => "SERVER"
    case DatabaseClass => "DATABASE"
    case SchemaClass(_) => "SCHEMA"
    case ObjectOrColumn(_, _, _) => "OBJECT_OR_COLUMN"
  }

  /** One row of `sys.server_permissions` or `sys.database_permissions`, joined
      with the grantee's name; `permission` is the canonical spelling. */
  datatype PermissionRow = PermissionRow(
    grantee: string, securable: Securable, permission: string, state: GrantState)

  /** One row of `sys.server_principals` left-joined with `sys.sql_logins`: the
      two checks are NULL for principals that are not SQL logins. */
  datatype LoginRow = LoginRow(
    typeCode: char, isDisabled: bool,
    isPolicyChecked: Option<bool>, isExpirationChecked: Option<bool>)

  datatype ObjectName = ObjectName(schema: string, name: string)

  datatype Database = Database(
    principals: set<string>, objects: seq<ObjectName>, permissions: seq<PermissionRow>)

  datatype Catalog = Catalog(
    serverPrincipals: map<string, LoginRow>,
    serverPermissions: seq<PermissionRow>,
    databases: map<string, Database>)

  /** Every statement the modules issue, in structure rather than SQL text. */
  datatype Statement =
    | Permission(stmt: PermissionStatement)
    | CreateSqlLogin(name: string, password: string, checkExpiration: bool, checkPolicy: bool)
    | CreateWindowsLogin(name: string)
    | AlterLoginEnabled(name: string, enabled: bool)
    | AlterLoginCheckPolicy(name: string, on: bool)
    | AlterLoginCheckExpiration(name: string, on: bool)
    | AlterLoginPassword(name: string, password: string)
    | DropLogin(name: string)
    | CreateUser(database: string, name: string)
    | DropUser(database: string, name: string)

  /** The rows a permission statement acts on: its grantee and permission and,
      outside server scope, the securable its target names. */
  predicate Covers(s: PermissionStatement, r: PermissionRow) {
    && r.grantee == s.principal
    && r.permission == s.permission
    && match s.target
       case OnServer => true
       case OnDatabase(_) => r.securable == DatabaseClass
       case OnObject(_, schema, obj) => r.securable == ObjectOrColumn(schema, obj, 0)
  }

  function RemoveCovered(rows: seq<PermissionRow>, s: PermissionStatement): (r: seq<PermissionRow>)
    ensures forall i :: 0 <= i < |r| ==> !Covers(s, r[i])
    ensures forall x :: x in r <==> x in rows && !Covers(s, x)
  {
    if rows == [] then []
    else if Covers(s, rows[0]) then RemoveCovered(rows[1..], s)
    else [rows[0]] + RemoveCovered(rows[1..], s)
  }

  function SecurableOf(t: Target): Securable {
    match t
    case OnServer => ServerClass
    case OnDatabase(_) => DatabaseClass
    case OnObject(_, schema, obj) => ObjectOrColumn(schema, obj, 0)
  }

  /** The row a permission statement leaves behind (none after a revoke). */
  function AddedRows(s: PermissionStatement): seq<PermissionRow> {
    if ResultState(s) == Revoke then []
    else [PermissionRow(s.principal, SecurableOf(s.target), s.permission, ResultState(s))]
  }

  /** The assumed effect of a permission statement: the covered rows are
      replaced by one row in the statement's result state. What the server does
      to grants made downstream (`CASCADE`) is not modelled. */
  function ApplyPermission(rows: seq<PermissionRow>, s: PermissionStatement): seq<PermissionRow> {
    RemoveCovered(rows, s) + AddedRows(s)
  }

  function DatabaseOf(t: Target): Option<string> {
    match t
    case OnServer => None
    case OnDatabase(db) => Some(db)
    case OnObject(db, _, _) => Some(db)
  }

  /** The assumed effect of executing and committing one statement. */
  function Apply(c: Catalog, st: Statement): (r: Catalog)
    ensures r.databases.Keys == c.databases.Keys
  {
    match st
    case Permission(s) =>
      (match DatabaseOf(s.target)
       case None => c.(serverPermissions := ApplyPermission(c.serverPermissions, s))
       case Some(db) =>
         if db in c.databases
         then c.(databases := c.databases[db := c.databases[db].(permissions := ApplyPermission(c.databases[db].permissions, s))])
         else c)
    case CreateSqlLogin(name, _, exp, policy) =>
      c.(serverPrincipals := c.serverPrincipals[name := LoginRow('S', false, Some(policy), Some(exp))])
    case CreateWindowsLogin(name) =>
      c.(serverPrincipals := c.serverPrincipals[name := LoginRow('U', false, None, None)])
    case AlterLoginEnabled(name, enabled) =>
      if name in c.serverPrincipals
      then c.(serverPrincipals := c.serverPrincipals[name := c.serverPrincipals[name].(isDisabled := !enabled)])
      else c
    case AlterLoginCheckPolicy(name, on) =>
      if name in c.serverPrincipals
      then c.(serverPrincipals := c.serverPrincipals[name := c.serverPrincipals[name].(isPolicyChecked := Some(on))])
      else c
    case AlterLoginCheckExpiration(name, on) =>
      if name in c.serverPrincipals
      then c.(serverPrincipals := c.serverPrincipals[name := c.serverPrincipals[name].(isExpirationChecked := Some(on))])
      else c
    case AlterLoginPassword(_, _) => c
    case DropLogin(name) => c.(serverPrincipals := c.serverPrincipals - {name})
    case CreateUser(db, name) =>
      if db in c.databases
      then c.(databases := c.databases[db := c.databases[db].(principals := c.databases[db].principals + {name})])
      else c
    case DropUser(db, name) =>
      if db in c.databases
      then c.(databases := c.databases[db := c.databases[db].(principals := c.databases[db].principals - {name})])
      else c
  }

  function ApplyAll(c: Catalog, sts: seq<Statement>): (r: Catalog)
    ensures r.databases.Keys == c.databases.Keys
    decreases sts
  {
    if sts == [] then c else ApplyAll(Apply(c, sts[0]), sts[1..])
  }

  lemma {:induction false} ApplyAllConcat(c: Catalog, a: seq<Statement>, b: seq<Statement>)
    ensures ApplyAll(c, a + b) == ApplyAll(ApplyAll(c, a), b)
    decreases a
  {
    if a == [] {
      assert a + b == b;
    } else {
      assert (a + b)[1..] == a[1..] + b;
      ApplyAllConcat(Apply(c, a[0]), a[1..], b);
    }
  }

  /** Executing one more statement. */
  lemma ApplyAllSnoc(c: Catalog, sts: seq<Statement>, st: Statement)
    ensures ApplyAll(c, sts + [st]) == Apply(ApplyAll(c, sts), st)
  {
    ApplyAllConcat(c, sts, [st]);
    assert [st][1..] == [];
  }

  /** What an operation decides on a catalog: its outcome and the statements
      it issues, in order, before it returns or raises. */
  datatype Plan<T> = Plan(outcome: Outcome<T>, statements: seq<Statement>)

  /** The open connection: the catalog it reaches and the statements it has
      executed and committed so far. */
  class Session {
    var catalog: Catalog
    var issued: seq<Statement>

    constructor (catalog: Catalog)
      ensures this.catalog == catalog && issued == []
    {
      this.catalog := catalog;
      issued := [];
    }

    /** `cursor.execute(query)` followed by `conn.commit()`. */
    method Execute(st: Statement)
      modifies this
      ensures catalog == Apply(old(catalog), st)
      ensures issued == old(issued) + [st]
    {
      catalog := Apply(catalog, st);
      issued := issued + [st];
    }
  }
}
