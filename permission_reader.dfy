/** The permission readers (`get_server_permission`, `get_db_permission`,
    `get_db_object_permission`): each runs one query and takes the first row it
    returns; a missing row means `revoke`, otherwise the row's `state_desc`
    lower-cased, which is the module's name of the row's state
    (`Grants.StateDescLowered`). */
module PermissionReader {
  import opened Common
  import opened Grants
  import opened Catalog

  /** What each reader's WHERE clause asks of a row; `permission` is the
      canonical spelling. The object query's `wholeObjectOnly` is the
      `minor_id = 0` condition that the query as written leaves out. */
  datatype Query =
    | ServerQuery(principal: string, permission: string)
    | DatabaseQuery(principal: string, permission: string)
    | ObjectQuery(principal: string, schema: string, obj: string, permission: string, wholeObjectOnly: bool)

  predicate Selects(q: Query, r: PermissionRow) {
    match q
    case ServerQuery(p, perm) =>
      r.grantee == p && r.permission == perm
    case DatabaseQuery(p, perm) =>
      r.grantee == p && ClassDesc(r.securable) == "DATABASE" && r.permission == perm
    case ObjectQuery(p, schema, obj, perm, whole) =>
      && r.grantee == p
      && ClassDesc(r.securable) == "OBJECT_OR_COLUMN"
      && r.securable.schema == schema && r.securable.name == obj
      && (whole ==> r.securable.column == 0)
      && r.permission == perm
  }

  /** Where `fetchone` lands: the index of the first selected row, or |rows|. */
  function FirstIndex(rows: seq<PermissionRow>, q: Query): (i: nat)
    ensures i <= |rows|
    ensures forall j :: 0 <= j < i ==> !Selects(q, rows[j])
    ensures i < |rows| ==> Selects(q, rows[i])
  {
    if rows == [] then 0
    else if Selects(q, rows[0]) then 0
    else 1 + FirstIndex(rows[1..], q)
  }

  /** The state the reader reports: the first selected row's, `revoke` if none. */
  function FirstMatch(rows: seq<PermissionRow>, q: Query): GrantState {
    var i := FirstIndex(rows, q);
    if i < |rows| then rows[i].state else Revoke
  }

  function ServerPermissionState(c: Catalog, principal: string, permission: string): GrantState {
    FirstMatch(c.serverPermissions, ServerQuery(principal, CanonicalName(permission)))
  }

  function DatabasePermissionState(c: Catalog, database: string, principal: string, permission: string): GrantState
    requires database in c.databases
  {
    FirstMatch(c.databases[database].permissions, DatabaseQuery(principal, CanonicalName(permission)))
  }

  /** The object reader as written: it does not restrict `minor_id`, so a
      column-level row counts as a row for the whole object. */
  function ObjectPermissionStateAsWritten(c: Catalog, database: string, schema: string, obj: string,
                                          principal: string, permission: string): GrantState
    requires database in c.databases
  {
    FirstMatch(c.databases[database].permissions,
               ObjectQuery(principal, schema, obj, CanonicalName(permission), false))
  }

  /** The object reader restricted to object-level rows (`minor_id = 0`). */
  function ObjectPermissionState(c: Catalog, database: string, schema: string, obj: string,
                                 principal: string, permission: string): GrantState
    requires database in c.databases
  {
    FirstMatch(c.databases[database].permissions,
               ObjectQuery(principal, schema, obj, CanonicalName(permission), true))
  }

  /** The database a target's reader queries exists. */
  predicate Readable(c: Catalog, t: Target) {
    DatabaseOf(t).Some? ==> DatabaseOf(t).value in c.databases
  }

  function QueryFor(t: Target, principal: string, permission: string): Query {
    match t
    case OnServer => ServerQuery(principal, CanonicalName(permission))
    case OnDatabase(_) => DatabaseQuery(principal, CanonicalName(permission))
    case OnObject(_, schema, obj) => ObjectQuery(principal, schema, obj, CanonicalName(permission), true)
  }

  function RowsFor(c: Catalog, t: Target): seq<PermissionRow>
    requires Readable(c, t)
  {
    match t
    case OnServer => c.serverPermissions
    case OnDatabase(db) => c.databases[db].permissions
    case OnObject(db, _, _) => c.databases[db].permissions
  }

  /** The reader of the module that owns the target. */
  function ReadState(c: Catalog, principal: string, t: Target, permission: string): (g: GrantState)
    requires Readable(c, t)
    ensures t == OnServer ==> g == ServerPermissionState(c, principal, permission)
    ensures t.OnDatabase? ==> g == DatabasePermissionState(c, t.database, principal, permission)
    ensures t.OnObject? ==> g == ObjectPermissionState(c, t.database, t.schema, t.obj, principal, permission)
  {
    FirstMatch(RowsFor(c, t), QueryFor(t, principal, permission))
  }

  /** No selected row: the reader reports `revoke`; otherwise the state of the
      first selected row, so a row whose state is not `revoke` is never hidden
      behind an unselected one. */
  lemma {:induction false} FirstMatchSpec(rows: seq<PermissionRow>, q: Query)
    ensures (forall r :: r in rows ==> !Selects(q, r)) <==> FirstIndex(rows, q) == |rows|
    ensures (forall r :: r in rows ==> !Selects(q, r)) ==> FirstMatch(rows, q) == Revoke
    ensures FirstMatch(rows, q) != Revoke ==>
      exists r :: r in rows && Selects(q, r) && r.state == FirstMatch(rows, q)
  {
    var i := FirstIndex(rows, q);
    if i < |rows| {
      assert rows[i] in rows;
    }
  }

  /** `FirstIndex` is the only index with its two properties. */
  lemma FirstIndexUnique(rows: seq<PermissionRow>, q: Query, k: nat)
    requires k <= |rows|
    requires forall j :: 0 <= j < k ==> !Selects(q, rows[j])
    requires k < |rows| ==> Selects(q, rows[k])
    ensures FirstIndex(rows, q) == k
  {
  }

  /** The reader looks at the head row first. */
  lemma FirstMatchCons(h: PermissionRow, t: seq<PermissionRow>, q: Query)
    ensures FirstMatch([h] + t, q) == if Selects(q, h) then h.state else FirstMatch(t, q)
  {
    assert ([h] + t)[0] == h;
    assert ([h] + t)[1..] == t;
  }

  /** Rows the query does not select may be added before or after without
      changing the answer. */
  lemma FirstMatchIgnoresUnselected(rows: seq<PermissionRow>, extra: seq<PermissionRow>, q: Query)
    requires forall r :: r in extra ==> !Selects(q, r)
    ensures FirstMatch(extra + rows, q) == FirstMatch(rows, q)
    ensures FirstMatch(rows + extra, q) == FirstMatch(rows, q)
  {
    var i := FirstIndex(rows, q);
    var front := extra + rows;
    forall j | 0 <= j < |extra| + i ensures !Selects(q, front[j]) {
      if j < |extra| {
        assert front[j] == extra[j] && extra[j] in extra;
      } else {
        assert front[j] == rows[j - |extra|];
      }
    }
    if i < |rows| {
      assert front[|extra| + i] == rows[i];
    }
    FirstIndexUnique(front, q, |extra| + i);
    var back := rows + extra;
    if i < |rows| {
      assert back[i] == rows[i];
      forall j | 0 <= j < i ensures !Selects(q, back[j]) {
        assert back[j] == rows[j];
      }
      FirstIndexUnique(back, q, i);
    } else {
      forall j | 0 <= j < |back| ensures !Selects(q, back[j]) {
        if j < |rows| {
          assert back[j] == rows[j];
        } else {
          assert back[j] == extra[j - |rows|] && extra[j - |rows|] in extra;
        }
      }
      FirstIndexUnique(back, q, |back|);
    }
  }

  /** The rows whose `class_desc` is the given one. */
  function RowsOfClass(rows: seq<PermissionRow>, classDesc: string): (r: seq<PermissionRow>)
    ensures forall x :: x in r <==> x in rows && ClassDesc(x.securable) == classDesc
  {
    if rows == [] then []
    else if ClassDesc(rows[0].securable) == classDesc then [rows[0]] + RowsOfClass(rows[1..], classDesc)
    else RowsOfClass(rows[1..], classDesc)
  }

  /** The database reader answers as if the catalog held only `DATABASE`-class
      rows, and the object reader as if it held only `OBJECT_OR_COLUMN` rows. */
  lemma {:induction false} ReadersFilterByClass(rows: seq<PermissionRow>, principal: string, permission: string,
                                                schema: string, obj: string, whole: bool)
    ensures FirstMatch(rows, DatabaseQuery(principal, permission))
         == FirstMatch(RowsOfClass(rows, "DATABASE"), DatabaseQuery(principal, permission))
    ensures FirstMatch(rows, ObjectQuery(principal, schema, obj, permission, whole))
         == FirstMatch(RowsOfClass(rows, "OBJECT_OR_COLUMN"), ObjectQuery(principal, schema, obj, permission, whole))
  {
    if rows != [] {
      var t := rows[1..];
      assert rows == [rows[0]] + t;
      ReadersFilterByClass(t, principal, permission, schema, obj, whole);
      FirstMatchCons(rows[0], t, DatabaseQuery(principal, permission));
      FirstMatchCons(rows[0], t, ObjectQuery(principal, schema, obj, permission, whole));
      FirstMatchCons(rows[0], RowsOfClass(t, "DATABASE"), DatabaseQuery(principal, permission));
      FirstMatchCons(rows[0], RowsOfClass(t, "OBJECT_OR_COLUMN"), ObjectQuery(principal, schema, obj, permission, whole));
    }
  }

  /** Removing the rows a statement covers does not change a query that selects
      none of them. */
  lemma {:induction false} FirstMatchRemoveCovered(rows: seq<PermissionRow>, s: PermissionStatement, q: Query)
    requires forall r :: r in rows && Selects(q, r) ==> !Covers(s, r)
    ensures FirstMatch(RemoveCovered(rows, s), q) == FirstMatch(rows, q)
  {
    if rows != [] {
      var h, t := rows[0], rows[1..];
      assert rows == [h] + t;
      assert forall r :: r in t ==> r in rows;
      FirstMatchRemoveCovered(t, s, q);
      FirstMatchCons(h, t, q);
      if !Covers(s, h) {
        FirstMatchCons(h, RemoveCovered(t, s), q);
      }
    }
  }

  /** After a statement, its own reader sees exactly the state it sets. */
  lemma ReadAfterOwnStatement(c: Catalog, s: PermissionStatement, permission: string)
    requires Readable(c, s.target)
    requires s.permission == CanonicalName(permission)
    ensures Readable(Apply(c, Permission(s)), s.target)
    ensures ReadState(Apply(c, Permission(s)), s.principal, s.target, permission) == ResultState(s)
  {
    var q := QueryFor(s.target, s.principal, permission);
    assert forall r :: Selects(q, r) ==> Covers(s, r);
    var rows := RowsFor(c, s.target);
    var kept := RemoveCovered(rows, s);
    assert forall r :: r in kept ==> !Selects(q, r);
    FirstMatchIgnoresUnselected(AddedRows(s), kept, q);
    assert RowsFor(Apply(c, Permission(s)), s.target) == kept + AddedRows(s);
  }

  /** ... and a statement about another permission or principal leaves the
      reader's answer for this one unchanged. */
  lemma ReadAfterOtherStatement(c: Catalog, s: PermissionStatement, principal: string, permission: string)
    requires Readable(c, s.target)
    requires s.principal != principal || s.permission != CanonicalName(permission)
    ensures Readable(Apply(c, Permission(s)), s.target)
    ensures ReadState(Apply(c, Permission(s)), principal, s.target, permission)
         == ReadState(c, principal, s.target, permission)
  {
    var q := QueryFor(s.target, principal, permission);
    var rows := RowsFor(c, s.target);
    assert forall r :: r in rows && Selects(q, r) ==> !Covers(s, r);
    FirstMatchRemoveCovered(rows, s, q);
    assert forall r :: r in AddedRows(s) ==> !Selects(q, r);
    FirstMatchIgnoresUnselected(RemoveCovered(rows, s), AddedRows(s), q);
    assert RowsFor(Apply(c, Permission(s)), s.target) == RemoveCovered(rows, s) + AddedRows(s);
  }
}
