/** The reconciliation shared by the three permission modules: read every
    requested permission into an insertion-ordered dict
    (`get_*_permissions`), then walk that dict once, accumulating the change
    flag and the `previous` and `current` lists and, outside check mode,
    issuing the one statement each permission needs (`run_module`'s loop and
    `modify_permission`). */
module Reconcile {
  import opened Common
  import opened Grants
  import opened Catalog
  import opened PermissionReader
  import opened MssqlModuleBase

  /** One `dict(permission=..., state=...)` of the result. */
  datatype Entry = Entry(permission: string, state: GrantState)

  /** The module result: `previous` and `current` are left out when empty. */
  datatype Report = Report(changed: bool, previous: Option<seq<Entry>>, current: Option<seq<Entry>>)

  /** The readers' `results` dict: its keys in insertion order and its values. */
  datatype PermissionStates = PermissionStates(order: seq<string>, states: map<string, GrantState>)

  /** `results[k] = v`: a new key goes to the end, an existing key keeps its place. */
  function Put(d: PermissionStates, k: string, v: GrantState): PermissionStates {
    if k in d.states then d.(states := d.states[k := v])
    else PermissionStates(d.order + [k], d.states[k := v])
  }

  /** `results.items()`. */
  function Items(d: PermissionStates): seq<Entry>
    requires forall k :: k in d.order ==> k in d.states
  {
    seq(|d.order|, i requires 0 <= i < |d.order| => Entry(d.order[i], d.states[d.order[i]]))
  }

  /** The distinct elements of `s` in order of first occurrence: the key order
      of a dict filled from `s`. */
  function Dedup(s: seq<string>): (r: seq<string>)
    ensures forall x :: x in r <==> x in s
    ensures forall i, j :: 0 <= i < j < |r| ==> r[i] != r[j]
    ensures |r| <= |s|
  {
    if s == [] then []
    else
      var d := Dedup(s[..|s| - 1]);
      var x := s[|s| - 1];
      assert forall y :: y in s <==> y in s[..|s| - 1] || y == x;
      if x in d then d else d + [x]
  }

  /** A list without repeats is its own key order. */
  lemma {:induction false} DedupOfDistinct(s: seq<string>)
    requires forall i, j :: 0 <= i < j < |s| ==> s[i] != s[j]
    ensures Dedup(s) == s
  {
    if s != [] {
      var init := s[..|s| - 1];
      DedupOfDistinct(init);
      assert s[|s| - 1] !in init;
      assert init + [s[|s| - 1]] == s;
    }
  }

  /** What the readers return for a list of requested permissions, as the loop
      of `run_module` sees it: one entry per distinct permission, in first
      occurrence order, with the state read from the catalog. */
  function ReadAll(c: Catalog, principal: string, t: Target, permissions: seq<string>): (r: seq<Entry>)
    requires Readable(c, t)
  {
    var d := Dedup(permissions);
    seq(|d|, i requires 0 <= i < |d| => Entry(d[i], ReadState(c, principal, t, d[i])))
  }

  /** Adding one more permission to the list. */
  lemma DedupSnoc(s: seq<string>, x: string)
    ensures Dedup(s + [x]) == if x in Dedup(s) then Dedup(s) else Dedup(s) + [x]
  {
    assert (s + [x])[..|s + [x]| - 1] == s;
  }

  /** `results` holds the readings of `order`, keyed and in that order. */
  ghost predicate HoldsReadings(results: PermissionStates, c: Catalog, principal: string, t: Target, order: seq<string>)
    requires Readable(c, t)
  {
    && results.order == order
    && (forall k :: k in results.states <==> k in results.order)
    && (forall k :: k in results.states ==> results.states[k] == ReadState(c, principal, t, k))
  }

  /** One more reading keeps `results` the readings of the deduplicated list. */
  lemma PutReading(results: PermissionStates, c: Catalog, principal: string, t: Target, pre: seq<string>, p: string)
    requires Readable(c, t)
    requires HoldsReadings(results, c, principal, t, Dedup(pre))
    ensures HoldsReadings(Put(results, p, ReadState(c, principal, t, p)), c, principal, t, Dedup(pre + [p]))
  {
    DedupSnoc(pre, p);
  }

  /** The items of the readings of the whole list are `ReadAll`. */
  lemma ItemsAreReadAll(results: PermissionStates, c: Catalog, principal: string, t: Target, permissions: seq<string>)
    requires Readable(c, t)
    requires HoldsReadings(results, c, principal, t, Dedup(permissions))
    ensures Items(results) == ReadAll(c, principal, t, permissions)
  {
    var d := Dedup(permissions);
    assert forall j :: 0 <= j < |d| ==> Items(results)[j] == Entry(d[j], ReadState(c, principal, t, d[j]));
  }

  /** `get_server_permissions` / `get_db_permissions` / `get_db_object_permissions`. */
  method GetPermissions(s: Session, principal: string, t: Target, permissions: seq<string>)
    returns (entries: seq<Entry>)
    requires Readable(s.catalog, t)
    ensures entries == ReadAll(s.catalog, principal, t, permissions)
  {
    var results := PermissionStates([], map[]);
    var i := 0;
    while i < |permissions|
      invariant 0 <= i <= |permissions|
      invariant HoldsReadings(results, s.catalog, principal, t, Dedup(permissions[..i]))
    {
      var p := permissions[i];
      assert permissions[..i + 1] == permissions[..i] + [p];
      PutReading(results, s.catalog, principal, t, permissions[..i], p);
      results := Put(results, p, ReadState(s.catalog, principal, t, p));
      i := i + 1;
    }
    assert permissions[..i] == permissions;
    ItemsAreReadAll(results, s.catalog, principal, t, permissions);
    entries := Items(results);
  }

  /** `changed`: some entry's previous state differs from the desired one. */
  function Changed(entries: seq<Entry>, desired: GrantState): bool {
    if entries == [] then false
    else Changed(entries[..|entries| - 1], desired) || entries[|entries| - 1].state != desired
  }

  /** `previous`: the entries that were not `revoke`, in order. */
  function PreviousEntries(entries: seq<Entry>): seq<Entry> {
    if entries == [] then []
    else
      var e := entries[|entries| - 1];
      PreviousEntries(entries[..|entries| - 1]) + (if e.state != Revoke then [e] else [])
  }

  /** `current`: every permission with the desired state, unless that is `revoke`. */
  function CurrentEntries(entries: seq<Entry>, desired: GrantState): seq<Entry> {
    if entries == [] then []
    else
      var e := entries[|entries| - 1];
      CurrentEntries(entries[..|entries| - 1], desired)
        + (if desired != Revoke then [Entry(e.permission, desired)] else [])
  }

  function NonEmpty(s: seq<Entry>): (r: Option<seq<Entry>>)
    ensures r.None? <==> s == []
    ensures r.Some? ==> r.value == s
  {
    if |s| > 0 then Some(s) else None
  }

  function ReportOf(entries: seq<Entry>, desired: GrantState): Report {
    Report(Changed(entries, desired), NonEmpty(PreviousEntries(entries)), NonEmpty(CurrentEntries(entries, desired)))
  }

  function StatementsOf(o: Option<PermissionStatement>): seq<Statement> {
    if o.Some? then [Permission(o.value)] else []
  }

  /** The statements a live run issues, in order. */
  function StatementsFor(principal: string, t: Target, entries: seq<Entry>, desired: GrantState): seq<Statement> {
    if entries == [] then []
    else
      var e := entries[|entries| - 1];
      StatementsFor(principal, t, entries[..|entries| - 1], desired)
        + StatementsOf(Transition(principal, t, e.permission, e.state, desired))
  }

  /** `modify_permission`: issue the statement of the transition table, if any. */
  method ModifyPermission(s: Session, principal: string, t: Target, permission: string,
                          previous: GrantState, desired: GrantState)
    modifies s
    ensures s.issued == old(s.issued) + StatementsOf(Transition(principal, t, permission, previous, desired))
    ensures s.catalog == ApplyAll(old(s.catalog), StatementsOf(Transition(principal, t, permission, previous, desired)))
  {
    var stmt := Transition(principal, t, permission, previous, desired);
    if stmt.Some? {
      s.Execute(Permission(stmt.value));
      assert ApplyAll(old(s.catalog), [Permission(stmt.value)]) == Apply(old(s.catalog), Permission(stmt.value));
    }
  }

  /** The report functions grow one entry at a time. */
  lemma SnocReport(pre: seq<Entry>, e: Entry, desired: GrantState)
    ensures Changed(pre + [e], desired) == (Changed(pre, desired) || e.state != desired)
    ensures PreviousEntries(pre + [e]) == PreviousEntries(pre) + (if e.state != Revoke then [e] else [])
    ensures CurrentEntries(pre + [e], desired)
         == CurrentEntries(pre, desired) + (if desired != Revoke then [Entry(e.permission, desired)] else [])
  {
    assert (pre + [e])[..|pre|] == pre;
  }

  /** The report and statement functions grow one entry at a time. */
  lemma Snoc(principal: string, t: Target, pre: seq<Entry>, e: Entry, desired: GrantState)
    ensures Changed(pre + [e], desired) == (Changed(pre, desired) || e.state != desired)
    ensures PreviousEntries(pre + [e]) == PreviousEntries(pre) + (if e.state != Revoke then [e] else [])
    ensures CurrentEntries(pre + [e], desired)
         == CurrentEntries(pre, desired) + (if desired != Revoke then [Entry(e.permission, desired)] else [])
    ensures StatementsFor(principal, t, pre + [e], desired)
         == StatementsFor(principal, t, pre, desired) + StatementsOf(Transition(principal, t, e.permission, e.state, desired))
  {
    assert (pre + [e])[..|pre|] == pre;
  }

  /** What the loop has issued so far: nothing in check mode, otherwise the
      transitions of the entries done, in order. */
  ghost predicate IssuedFor(s: Session, c0: Catalog, i0: seq<Statement>, principal: string, t: Target,
                            done: seq<Entry>, desired: GrantState, checkMode: bool)
    reads s
  {
    if checkMode then s.catalog == c0 && s.issued == i0
    else s.issued == i0 + StatementsFor(principal, t, done, desired)
         && s.catalog == ApplyAll(c0, StatementsFor(principal, t, done, desired))
  }

  /** One live iteration of the loop: the next transition is issued on top
      of the earlier ones. */
  method ReconcileStep(s: Session, principal: string, t: Target, ghost c0: Catalog, ghost i0: seq<Statement>,
                       ghost done: seq<Entry>, e: Entry, desired: GrantState)
    requires IssuedFor(s, c0, i0, principal, t, done, desired, false)
    modifies s
    ensures IssuedFor(s, c0, i0, principal, t, done + [e], desired, false)
  {
    Snoc(principal, t, done, e, desired);
    ghost var sofar := StatementsFor(principal, t, done, desired);
    ghost var next := StatementsOf(Transition(principal, t, e.permission, e.state, desired));
    ModifyPermission(s, principal, t, e.permission, e.state, desired);
    ApplyAllConcat(c0, sofar, next);
  }

  /** The loop of `run_module` and the shaping of its result. The report is the
      same in check mode and in a live run from the same state; only a live run
      issues statements. */
  method ReconcilePermissions(s: Session, principal: string, t: Target, entries: seq<Entry>,
                              desired: GrantState, checkMode: bool)
    returns (report: Report)
    modifies s
    ensures report == ReportOf(entries, desired)
    ensures checkMode ==> s.catalog == old(s.catalog) && s.issued == old(s.issued)
    ensures !checkMode ==> s.issued == old(s.issued) + StatementsFor(principal, t, entries, desired)
    ensures !checkMode ==> s.catalog == ApplyAll(old(s.catalog), StatementsFor(principal, t, entries, desired))
  {
    var changed := false;
    var previous: seq<Entry> := [];
    var current: seq<Entry> := [];
    ghost var done: seq<Entry> := [];
    ghost var c0, i0 := s.catalog, s.issued;
    assert ApplyAll(c0, []) == c0 && i0 + [] == i0;
    var i := 0;
    while i < |entries|
      invariant 0 <= i <= |entries|
      invariant done == entries[..i]
      invariant changed == Changed(done, desired)
      invariant previous == PreviousEntries(done)
      invariant current == CurrentEntries(done, desired)
      invariant IssuedFor(s, c0, i0, principal, t, done, desired, checkMode)
    {
      var e := entries[i];
      SnocReport(done, e, desired);
      if e.state != desired {
        changed := true;
      }
      if e.state != Revoke {
        previous := previous + [e];
      }
      if desired != Revoke {
        current := current + [Entry(e.permission, desired)];
      }
      if !checkMode {
        ReconcileStep(s, principal, t, c0, i0, done, e, desired);
      }
      done := done + [e];
      i := i + 1;
      assert done == entries[..i];
    }
    assert done == entries;
    report := Report(changed, NonEmpty(previous), NonEmpty(current));
  }

  /** The part of `run_module` after validation, common to the three
      permission modules: read, reconcile, close the session, and return the
      result that `exit_json` reports. */
  method ReadReconcileClose(m: MssqlModule, s: Session, principal: string, t: Target,
                            permissions: seq<string>, desired: GrantState)
    returns (report: Report)
    requires Readable(s.catalog, t)
    modifies m, s
    ensures report == ReportOf(ReadAll(old(s.catalog), principal, t, permissions), desired)
    ensures m.checkMode ==> s.catalog == old(s.catalog) && s.issued == old(s.issued)
    ensures !m.checkMode ==> s.issued == old(s.issued) + StatementsFor(principal, t, ReadAll(old(s.catalog), principal, t, permissions), desired)
    ensures !m.checkMode ==> s.catalog == ApplyAll(old(s.catalog), StatementsFor(principal, t, ReadAll(old(s.catalog), principal, t, permissions), desired))
    ensures m.State() == Closed(old(m.State())) && m.failure == old(m.failure)
  {
    var entries := GetPermissions(s, principal, t, permissions);
    report := ReconcilePermissions(s, principal, t, entries, desired, m.checkMode);
    m.CloseClientSession();
  }

  /** `changed` holds exactly when some previous state differs from the desired one. */
  lemma {:induction false} ChangedIff(entries: seq<Entry>, desired: GrantState)
    ensures Changed(entries, desired) <==> exists i :: 0 <= i < |entries| && entries[i].state != desired
  {
    if entries != [] {
      var init := entries[..|entries| - 1];
      ChangedIff(init, desired);
      if Changed(init, desired) {
        var i :| 0 <= i < |init| && init[i].state != desired;
        assert entries[i] == init[i];
      }
      if exists i :: 0 <= i < |entries| && entries[i].state != desired {
        var i :| 0 <= i < |entries| && entries[i].state != desired;
        if i < |init| {
          assert init[i] == entries[i];
        }
      }
    }
  }

  /** `previous` lists exactly the entries whose previous state is not `revoke`. */
  lemma {:induction false} PreviousMembers(entries: seq<Entry>)
    ensures forall e :: e in PreviousEntries(entries) <==> e in entries && e.state != Revoke
  {
    if entries != [] {
      var init := entries[..|entries| - 1];
      PreviousMembers(init);
      assert entries == init + [entries[|entries| - 1]];
    }
  }

  /** ... and keeps their input order: the filter distributes over concatenation. */
  lemma {:induction false} PreviousInOrder(a: seq<Entry>, b: seq<Entry>)
    ensures PreviousEntries(a + b) == PreviousEntries(a) + PreviousEntries(b)
    decreases |b|
  {
    if b == [] {
      assert a + b == a;
    } else {
      var binit := b[..|b| - 1];
      PreviousInOrder(a, binit);
      assert (a + b)[..|a + b| - 1] == a + binit;
      assert (a + b)[|a + b| - 1] == b[|b| - 1];
    }
  }

  /** `current` has one entry per permission, in order, all in the desired
      state, unless the desired state is `revoke`, when it is empty. */
  lemma {:induction false} CurrentShape(entries: seq<Entry>, desired: GrantState)
    ensures desired == Revoke ==> CurrentEntries(entries, desired) == []
    ensures desired != Revoke ==>
      |CurrentEntries(entries, desired)| == |entries| &&
      forall i :: 0 <= i < |entries| ==> CurrentEntries(entries, desired)[i] == Entry(entries[i].permission, desired)
  {
    if entries != [] {
      var init := entries[..|entries| - 1];
      CurrentShape(init, desired);
      if desired != Revoke {
        forall i | 0 <= i < |entries|
          ensures CurrentEntries(entries, desired)[i] == Entry(entries[i].permission, desired)
        {
          if i < |init| {
            assert entries[i] == init[i];
          }
        }
      }
    }
  }

  /** Which keys the result carries: `previous` is absent exactly when every
      previous state was `revoke`, `current` exactly when the desired state is
      `revoke` or nothing was requested. */
  lemma ReportKeys(entries: seq<Entry>, desired: GrantState)
    ensures ReportOf(entries, desired).previous.None? <==> forall e :: e in entries ==> e.state == Revoke
    ensures ReportOf(entries, desired).current.None? <==> desired == Revoke || entries == []
  {
    PreviousMembers(entries);
    CurrentShape(entries, desired);
    var prev := PreviousEntries(entries);
    if prev != [] {
      assert prev[0] in prev;
    }
    if !(forall e :: e in entries ==> e.state == Revoke) {
      var e :| e in entries && e.state != Revoke;
      assert e in prev;
    }
  }

  /** A live run issues no statement exactly when nothing changes. */
  lemma {:induction false} NoStatementsIffUnchanged(principal: string, t: Target, entries: seq<Entry>, desired: GrantState)
    ensures StatementsFor(principal, t, entries, desired) == [] <==> !Changed(entries, desired)
  {
    if entries != [] {
      NoStatementsIffUnchanged(principal, t, entries[..|entries| - 1], desired);
    }
  }

  /** One step of a live run: the statement for permission `p` makes `p` read
      as desired (when `previous` is what was read for it) and leaves every
      other identifier's reading alone. */
  lemma TransitionReads(c: Catalog, principal: string, t: Target, p: string,
                        previous: GrantState, desired: GrantState)
    requires Readable(c, t)
    requires IsIdentifier(p)
    ensures Readable(ApplyAll(c, StatementsOf(Transition(principal, t, p, previous, desired))), t)
    ensures previous == ReadState(c, principal, t, p) ==>
      ReadState(ApplyAll(c, StatementsOf(Transition(principal, t, p, previous, desired))), principal, t, p) == desired
    ensures forall q :: IsIdentifier(q) && q != p ==>
      ReadState(ApplyAll(c, StatementsOf(Transition(principal, t, p, previous, desired))), principal, t, q)
        == ReadState(c, principal, t, q)
  {
    var o := Transition(principal, t, p, previous, desired);
    if o.Some? {
      var st := o.value;
      assert ApplyAll(c, StatementsOf(o)) == Apply(c, Permission(st));
      ReadAfterOwnStatement(c, st, p);
      forall q | IsIdentifier(q) && q != p
        ensures ReadState(Apply(c, Permission(st)), principal, t, q) == ReadState(c, principal, t, q)
      {
        CanonicalInjective(q, p);
        ReadAfterOtherStatement(c, st, principal, q);
      }
    } else {
      assert ApplyAll(c, StatementsOf(o)) == c;
    }
  }

  /** A reconcile run issues only permission statements. */
  ghost predicate OnlyPermissions(sts: seq<Statement>) {
    forall i :: 0 <= i < |sts| ==> sts[i].Permission?
  }

  lemma {:induction false} StatementsForArePermissions(principal: string, t: Target, entries: seq<Entry>, desired: GrantState)
    ensures OnlyPermissions(StatementsFor(principal, t, entries, desired))
  {
    if entries != [] {
      StatementsForArePermissions(principal, t, entries[..|entries| - 1], desired);
    }
  }

  /** Permission statements leave the principals and the objects alone. */
  lemma {:induction false} PermissionStatementsKeepPrincipals(c: Catalog, sts: seq<Statement>)
    requires OnlyPermissions(sts)
    ensures ApplyAll(c, sts).serverPrincipals == c.serverPrincipals
    ensures forall db :: db in c.databases ==> ApplyAll(c, sts).databases[db].principals == c.databases[db].principals
    ensures forall db :: db in c.databases ==> ApplyAll(c, sts).databases[db].objects == c.databases[db].objects
    decreases sts
  {
    if sts != [] {
      PermissionStatementsKeepPrincipals(Apply(c, sts[0]), sts[1..]);
    }
  }

  /** Distinct, identifier-shaped permissions whose entries were read from `c`. */
  ghost predicate ReadFrom(c: Catalog, principal: string, t: Target, entries: seq<Entry>) {
    && Readable(c, t)
    && (forall i :: 0 <= i < |entries| ==> IsIdentifier(entries[i].permission))
    && (forall i, j :: 0 <= i < j < |entries| ==> entries[i].permission != entries[j].permission)
    && (forall i :: 0 <= i < |entries| ==> entries[i].state == ReadState(c, principal, t, entries[i].permission))
  }

  /** After a live run has issued the statements of the first k entries, those
      k permissions read as desired and the others as before. */
  lemma {:induction false} LiveRunPrefix(c: Catalog, principal: string, t: Target, entries: seq<Entry>,
                                         desired: GrantState, k: nat)
    requires ReadFrom(c, principal, t, entries)
    requires k <= |entries|
    ensures Readable(ApplyAll(c, StatementsFor(principal, t, entries[..k], desired)), t)
    ensures forall j :: 0 <= j < |entries| ==>
      ReadState(ApplyAll(c, StatementsFor(principal, t, entries[..k], desired)), principal, t, entries[j].permission)
        == if j < k then desired else entries[j].state
  {
    if k == 0 {
      assert entries[..0] == [];
    } else {
      LiveRunPrefix(c, principal, t, entries, desired, k - 1);
      var e := entries[k - 1];
      var pre := entries[..k - 1];
      assert entries[..k] == pre + [e];
      Snoc(principal, t, pre, e, desired);
      var sofar := StatementsFor(principal, t, pre, desired);
      var next := StatementsOf(Transition(principal, t, e.permission, e.state, desired));
      var mid := ApplyAll(c, sofar);
      ApplyAllConcat(c, sofar, next);
      TransitionReads(mid, principal, t, e.permission, e.state, desired);
      var after := ApplyAll(mid, next);
      forall j | 0 <= j < |entries|
        ensures ReadState(after, principal, t, entries[j].permission) == if j < k then desired else entries[j].state
      {
        if j != k - 1 {
          var q := entries[j].permission;
          assert IsIdentifier(q) && q != e.permission;
          assert ReadState(after, principal, t, q) == ReadState(mid, principal, t, q);
        }
      }
    }
  }

  /** Idempotence: after a live run, reading the same permissions again finds
      every one in the desired state, so a second run reports no change and
      issues no statement. */
  lemma RerunIsNoOp(c: Catalog, principal: string, t: Target, permissions: seq<string>, desired: GrantState)
    requires Readable(c, t)
    requires forall p :: p in permissions ==> IsIdentifier(p)
    ensures var after := ApplyAll(c, StatementsFor(principal, t, ReadAll(c, principal, t, permissions), desired));
      && Readable(after, t)
      && (forall e :: e in ReadAll(after, principal, t, permissions) ==> e.state == desired)
      && !ReportOf(ReadAll(after, principal, t, permissions), desired).changed
      && StatementsFor(principal, t, ReadAll(after, principal, t, permissions), desired) == []
  {
    var entries := ReadAll(c, principal, t, permissions);
    var d := Dedup(permissions);
    assert forall i :: 0 <= i < |entries| ==> entries[i].permission == d[i];
    assert forall i :: 0 <= i < |d| ==> d[i] in permissions;
    assert ReadFrom(c, principal, t, entries);
    LiveRunPrefix(c, principal, t, entries, desired, |entries|);
    assert entries[..|entries|] == entries;
    var after := ApplyAll(c, StatementsFor(principal, t, entries, desired));
    var again := ReadAll(after, principal, t, permissions);
    assert forall i :: 0 <= i < |again| ==> again[i].state == desired;
    ChangedIff(again, desired);
    NoStatementsIffUnchanged(principal, t, again, desired);
  }

  /** The report of the worked example: previous `[grant, revoke]` for `[a, b]`
      and desired `deny`. */
  lemma ReportExample()
    ensures ReportOf([Entry("a", Grant), Entry("b", Revoke)], Deny)
         == Report(true, Some([Entry("a", Grant)]), Some([Entry("a", Deny), Entry("b", Deny)]))
  {
    var a, b := Entry("a", Grant), Entry("b", Revoke);
    Snoc("", OnServer, [], a, Deny);
    assert [] + [a] == [a];
    assert PreviousEntries([a]) == [a];
    assert CurrentEntries([a], Deny) == [Entry("a", Deny)];
    Snoc("", OnServer, [a], b, Deny);
    assert [a] + [b] == [a, b];
    assert PreviousEntries([a, b]) == [a];
    assert CurrentEntries([a, b], Deny) == [Entry("a", Deny), Entry("b", Deny)];
  }

  /** Revoking permissions nobody holds reports nothing. */
  lemma RevokeUnheldExample()
    ensures ReportOf([Entry("a", Revoke), Entry("b", Revoke)], Revoke) == Report(false, None, None)
  {
    var a, b := Entry("a", Revoke), Entry("b", Revoke);
    Snoc("", OnServer, [], a, Revoke);
    assert [] + [a] == [a];
    assert PreviousEntries([a]) == [] && !Changed([a], Revoke);
    Snoc("", OnServer, [a], b, Revoke);
    assert [a] + [b] == [a, b];
    assert PreviousEntries([a, b]) == [] && !Changed([a, b], Revoke);
  }
}
