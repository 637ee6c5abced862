# mssql collection: idempotent reconciliation, in Dafny

This project models the core of an Ansible collection for Microsoft SQL Server.
It covers five modules:

- `mssql_server_permission`, `mssql_db_permission` and `mssql_db_object_permission`
  bring named permissions of one principal to a desired state: `grant`, `deny`,
  `revoke` or `grant_with_grant_option`.
- `mssql_login` makes a server login present or absent.
- `mssql_db_user` makes a database user for a login present or absent.

All five share the `MssqlModule` base class, which:

- merges the connection options into each module's argument specification;
- filters the parameters a module works from;
- fails through `handle_error`;
- closes the client session.

Every module reads the server's catalog, decides what differs from the
request, and (outside check mode) issues one statement per difference. It then
reports `changed` with the previous and current values.

The server side is an abstract catalog (`Catalog.Catalog`). It holds the server
principals and their login rows, the server permission rows, and, per
database, its principals, objects and permission rows. A query is a function
on the catalog, and `fetchone` is "the first selected row"
(`PermissionReader.FirstMatch`). The presumed effect of each issued statement
is `Catalog.Apply`. The open connection is a `Session` object whose `Execute`
applies a statement and appends it to `issued`.

Each module has two parts:

- A pure plan, either the report functions of `Reconcile` or a `Plan`
  function of an outcome and statements. It says what the module decides and
  issues.
- A method (`RunModule`, `EnsurePresent`, ...) that performs the steps on the
  `Session` and the `MssqlModule` object. Its `ensures` ties the outcome, the
  issued statements, the new catalog and the session fields to the plan.

Outcomes are `Done` (the module exits with a result), `Fail` (`handle_error`
closed the session and called `fail_json`) and `Crash` (a Python exception
escapes; the session is left open).

The central property is idempotence. After a live run, running the module
with the same options again reports no change and issues nothing. For the permission modules this is
`Reconcile.RerunIsNoOp` and each module's `RunTwiceIsNoOp`. For users it is
`DbUser.RunTwiceIsNoOp`. For logins it is `Login.RunTwiceIsStable`: only the
password, which cannot be read back, is set again. The object module and the
login module are idempotent only in their corrected form (see "## Findings").
The login methods take the `password_set` rule as a parameter, so they model
both the code as written and the corrected code.

## Model

| member | source | states |
|---|---|---|
| Common.Lower | plugins/modules/mssql_server_permission.py:379 | ASCII lower-casing keeps the length, maps each character and leaves no upper-case letter |
| Grants.StateDescLowered | plugins/modules/mssql_server_permission.py:376-379 | lower-casing a row's `state_desc` gives exactly the module's name of that state, and distinct states have distinct names |
| Grants.CanonicalName | plugins/modules/mssql_server_permission.py:384-395 | `replace('_', ' ').upper()`: the same length, no `_` and no lower-case letter left, a space exactly where the input had `_` or space |
| Grants.IdentifierOf | plugins/modules/mssql_server_permission.py:384-395 | the reference inverse of the conversion keeps the length |
| Grants.CanonicalRoundTrip | plugins/modules/mssql_server_permission.py:384-395 | on a permission identifier (lower-case letters, digits and `_`), converting back recovers the choice |
| Grants.CanonicalInjective | plugins/modules/mssql_server_permission.py:384-395 | two permission identifiers (lower-case letters, digits and `_`) give the same SQL text if and only if they are the same identifier |
| Grants.CanonicalExample | plugins/modules/mssql_server_permission.py:384-395 | `connect_sql` becomes `CONNECT SQL`, `view_server_state` becomes `VIEW SERVER STATE` |
| Grants.Transition | plugins/modules/mssql_server_permission.py:398-440 | no statement if and only if the previous state equals the desired one; otherwise the statement leaves the desired state, with `CASCADE` exactly when grant option was held and `WITH GRANT OPTION` exactly for `grant_with_grant_option` |
| Grants.GrantDowngrade | plugins/modules/mssql_server_permission.py:423-427 | `grant` from `grant_with_grant_option` is `REVOKE GRANT OPTION FOR ... CASCADE`; from any other state it is a plain `GRANT` |
| Catalog.ClassDesc | plugins/modules/mssql_db_permission.py:277 | the `class_desc` text is `DATABASE` exactly for the database securable and `OBJECT_OR_COLUMN` exactly for object and column securables |
| Catalog.RemoveCovered | plugins/modules/mssql_server_permission.py:418-434 | the rows a statement acts on are removed and every other row is kept |
| Catalog.Apply | plugins/modules/mssql_server_permission.py:413-438 | the presumed effect of an executed and committed statement on the catalog, here the permission statements of `modify_permission` (the statements of mssql_db_permission.py:371-372, mssql_db_object_permission.py:564-565, mssql_login.py:150-151, 284-289 and 357-391, and mssql_db_user.py:100-101 and 133-134 likewise); the set of databases never changes |
| Catalog.ApplyAllConcat | plugins/modules/mssql_server_permission.py:259-276 | statements committed one after another compose |
| Catalog.Session.Execute | plugins/modules/mssql_login.py:148-150 | `execute` then `commit`: the statement takes effect and is appended to `issued` |
| PermissionReader.FirstIndex | plugins/modules/mssql_server_permission.py:370-379 | `fetchone` lands on the first row the query selects, or past the end |
| PermissionReader.FirstMatchSpec | plugins/modules/mssql_server_permission.py:376-379 | no selected row reads as `revoke`; any other answer is the state of a selected row |
| PermissionReader.ReadersFilterByClass | plugins/modules/mssql_db_object_permission.py:451 | the database reader sees only `DATABASE` rows, the object reader only `OBJECT_OR_COLUMN` rows |
| PermissionReader.ReadState | plugins/modules/mssql_db_object_permission.py:411-466 | each target is read by its own module's reader; objects use the reader restricted to whole-object rows |
| PermissionReader.ReadAfterOwnStatement | plugins/modules/mssql_server_permission.py:398-440 | after a statement, its own reader sees exactly the state the statement sets |
| PermissionReader.ReadAfterOtherStatement | plugins/modules/mssql_server_permission.py:398-440 | a statement about another principal or permission does not change a reading |
| Reconcile.Dedup | plugins/modules/mssql_server_permission.py:335-336 | the keys of the ordered dict: the same permissions, each once, in first-seen order |
| Reconcile.DedupOfDistinct | plugins/modules/mssql_server_permission.py:335-336 | a list without repeats keeps its order and length |
| Reconcile.GetPermissions | plugins/modules/mssql_server_permission.py:317-338 | the loop reads every listed permission once, in order, as the reader sees it |
| Reconcile.ModifyPermission | plugins/modules/mssql_server_permission.py:398-440 | issues exactly the transition's statement, or nothing |
| Reconcile.ReconcilePermissions | plugins/modules/mssql_server_permission.py:259-287 | the report is `ReportOf` the readings; check mode issues nothing; a live run issues the transitions in order |
| Reconcile.ReadReconcileClose | plugins/modules/mssql_server_permission.py:244-290 | read, reconcile, then close the session: the cursor and then the connection are closed, and no failure is recorded |
| Reconcile.ChangedIff | plugins/modules/mssql_server_permission.py:259-261 | `changed` if and only if some permission was not in the desired state |
| Reconcile.PreviousMembers | plugins/modules/mssql_server_permission.py:263-264 | `previous` lists exactly the permissions that were not `revoke` |
| Reconcile.PreviousInOrder | plugins/modules/mssql_server_permission.py:263-264 | `previous` keeps the requested order |
| Reconcile.CurrentShape | plugins/modules/mssql_server_permission.py:266-267 | `current` lists every permission in the desired state, and is empty when the desired state is `revoke` |
| Reconcile.ReportKeys | plugins/modules/mssql_server_permission.py:278-287 | `previous` is left out if and only if every permission was `revoke`; `current` is left out if and only if it would be empty |
| Reconcile.NoStatementsIffUnchanged | plugins/modules/mssql_server_permission.py:259-276 | a live run issues nothing if and only if it reports no change |
| Reconcile.TransitionReads | plugins/modules/mssql_server_permission.py:398-440 | after one transition, its permission reads the desired state and every other permission reads what it read before |
| Reconcile.StatementsForArePermissions | plugins/modules/mssql_server_permission.py:259-276 | the permission modules issue only permission statements |
| Reconcile.PermissionStatementsKeepPrincipals | plugins/modules/mssql_server_permission.py:398-440 | permission statements leave logins, database principals and objects unchanged |
| Reconcile.LiveRunPrefix | plugins/modules/mssql_server_permission.py:259-276 | after the first k transitions, those permissions read the desired state and the rest still read their old state |
| Reconcile.RerunIsNoOp | plugins/modules/mssql_server_permission.py:259-287 | after a live run every permission reads the desired state, so a second run reports no change and issues nothing |
| Reconcile.ReportExample | plugins/modules/mssql_server_permission.py:278-287 | `[grant, revoke]` to `deny` reports `previous` `[a: grant]` and `current` both `deny` |
| Reconcile.RevokeUnheldExample | plugins/modules/mssql_server_permission.py:278-287 | revoking permissions nobody holds reports only `changed` false |
| ServerPermission.ValidateParams | plugins/modules/mssql_server_permission.py:293-314 | an empty list fails first, then an unknown server principal; both conditions pass if and only if no error is reported |
| ServerPermission.RunModule | plugins/modules/mssql_server_permission.py:189-290 | fails exactly on a validation error, issuing nothing; otherwise reports `ReportOf` the readings, issues the transitions outside check mode, leaves the catalog with those transitions applied, records no failure, and closes the session |
| ServerPermission.RunTwiceIsNoOp | plugins/modules/mssql_server_permission.py:189-290 | a second run with the same options reports no change and issues nothing |
| ServerPermission.ScenarioReads | plugins/modules/mssql_server_permission.py:317-338 | with `connect_sql` granted and `view_server_state` denied, the readings are those two states in the requested order |
| ServerPermission.ScenarioPlan | plugins/modules/mssql_server_permission.py:259-287 | those readings, asked to be `grant_with_grant_option`: the report and the two `GRANT ... WITH GRANT OPTION` statements |
| DbPermission.ValidateParams | plugins/modules/mssql_db_permission.py:184-219 | empty list, then missing database, then missing database principal; no error if and only if all three hold |
| DbPermission.RunModule | plugins/modules/mssql_db_permission.py:26-181 | as for the server module, with the readings and statements scoped to the database |
| DbPermission.StatementsUseDatabase | plugins/modules/mssql_db_permission.py:309-374 | every statement names the module's database as its target |
| DbPermission.RunTwiceIsNoOp | plugins/modules/mssql_db_permission.py:26-181 | a second run with the same options reports no change and issues nothing |
| DbObjectPermission.MatchingObjects | plugins/modules/mssql_db_object_permission.py:308-321 | the objects of the given name, in any schema |
| DbObjectPermission.TwoMatches | plugins/modules/mssql_db_object_permission.py:320-321 | two objects of that name make the match count at least two |
| DbObjectPermission.ValidateParams | plugins/modules/mssql_db_object_permission.py:271-338 | each error (no permission, no database, no principal, no or an ambiguous object without a schema, no object in the given schema) is reported exactly when its check is the first to fail; no error if and only if the database and principal exist and the object is unique (no schema given) or exists in the given schema |
| DbObjectPermission.ResolveSchema | plugins/modules/mssql_db_object_permission.py:341-369 | the schema of the first object of that name; `TypeError` when there is none |
| DbObjectPermission.ChosenSchema | plugins/modules/mssql_db_object_permission.py:215-218 | a given schema is used as is |
| DbObjectPermission.ValidatedSchema | plugins/modules/mssql_db_object_permission.py:215-218 | after validation the schema resolves to one in which the object exists |
| DbObjectPermission.TargetOf | plugins/modules/mssql_db_object_permission.py:215-218 | the target is the requested object of the requested database |
| DbObjectPermission.RunModule | plugins/modules/mssql_db_object_permission.py:176-268 | as for the server module, with the readings (by the corrected reader) and statements on the resolved object |
| DbObjectPermission.AmbiguousObjectRejected | plugins/modules/mssql_db_object_permission.py:320-321 | no schema and two objects of that name: the module fails with the ambiguity error |
| DbObjectPermission.RunTwiceIsNoOp | plugins/modules/mssql_db_object_permission.py:176-268 | with the corrected reader, a second run with the same options reports no change and issues nothing |
| DbObjectPermission.ReadersAgreeWithoutColumnRows | plugins/modules/mssql_db_object_permission.py:441-451 | without column-level rows the reader as written and the corrected reader agree |
| DbObjectPermission.ColumnGrantHidesMissingObjectGrant | plugins/modules/mssql_db_object_permission.py:441-451 | a column-level `SELECT` grant reads as a grant on the whole object, so `grant` is skipped; the corrected reader sees `revoke` and grants |
| DbObjectPermission.ColumnGrantRerunReissuesDeny | plugins/modules/mssql_db_object_permission.py:441-451 | with the reader as written, the `DENY` a run issues leaves the column grant first, so the next run reads `grant` again and issues the same `DENY`; the corrected reader reads `deny` |
| DbUser.ValidateParams | plugins/modules/mssql_db_user.py:51-69 | fails if and only if the database does not exist |
| DbUser.PresentPlan | plugins/modules/mssql_db_user.py:72-105 | fails if and only if there is no server login; `changed` if and only if the user was missing; only a live change issues `CREATE USER`, after which the user exists |
| DbUser.AbsentPlan | plugins/modules/mssql_db_user.py:108-138 | `changed` if and only if the user existed; only a live change issues `DROP USER`, after which the user is gone |
| DbUser.RunPlan | plugins/modules/mssql_db_user.py:24-48 | a validation error fails the module before anything is issued |
| DbUser.CheckModeMatchesLiveRun | plugins/modules/mssql_db_user.py:93-105 | check mode reports what a live run reports and issues nothing |
| DbUser.RunTwiceIsNoOp | plugins/modules/mssql_db_user.py:24-48 | a second run reports no change and issues nothing |
| DbUser.EnsurePresent | plugins/modules/mssql_db_user.py:72-105 | performs `PresentPlan` on the session; a missing login fails it through `handle_error` |
| DbUser.EnsureAbsent | plugins/modules/mssql_db_user.py:108-138 | performs `AbsentPlan` on the session |
| DbUser.RunModule | plugins/modules/mssql_db_user.py:24-48 | performs `RunPlan`, recording the failure (and no failure when it finishes), and leaves the session closed |
| Login.ValidateParams | plugins/modules/mssql_login.py:64-97 | no error if and only if the password options are absent wherever they are not allowed and an expiration check comes with a policy check; each of the seven errors is reported exactly when its check is the first to fail, in the source's order |
| Login.LoginTypeOf | plugins/modules/mssql_login.py:204-219 | a type code maps to a login type if and only if the code belongs to that type |
| Login.FormatLogin | plugins/modules/mssql_login.py:193-227 | an unknown type code fails the module; otherwise `enabled` is the negation of `is_disabled` and the checks are carried over |
| Login.GetLogin | plugins/modules/mssql_login.py:158-190 | no principal of that name reads as `None`; a failure is the unknown type code of the existing row |
| Login.CreatedLogin | plugins/modules/mssql_login.py:242-254 | a new SQL login defaults to enabled, no expiration check and policy check on; other logins report no checks |
| Login.CreatePlan | plugins/modules/mssql_login.py:230-293 | always `changed`; `password_set` exactly when a password was given; a live SQL create without a password raises `KeyError`; otherwise the create, then `DISABLE` when asked |
| Login.PasswordSet | plugins/modules/mssql_login.py:323 | the corrected flag holds exactly when the flag as written holds and a password was given |
| Login.Decide | plugins/modules/mssql_login.py:309-335 | an option that is not given keeps the existing value; each change flag holds exactly when a given value differs; only SQL logins have password checks |
| Login.UpdateResult | plugins/modules/mssql_login.py:337-347 | `changed` is `password_set` or a configuration change; `previous` appears exactly with a configuration change |
| Login.ConfigStatements | plugins/modules/mssql_login.py:349-384 | enable or disable, then `CHECK_POLICY`, then `CHECK_EXPIRATION`, each present if and only if its flag is set |
| Login.UpdatePlan | plugins/modules/mssql_login.py:296-395 | a type change fails before anything is issued; check mode issues nothing; `KeyError` exactly when the password is to be set but none was given; the statements are in the fixed order |
| Login.UpdateLoginAsWritten | plugins/modules/mssql_login.py:323 | as written, with `update_password` `always` every run reports changed, and a live run without a password raises `KeyError` |
| Login.UpdateLogin | plugins/modules/mssql_login.py:296-395 | with the corrected flag it never raises; the password statement is issued last, and only when a password is set |
| Login.EnsurePresentPlan | plugins/modules/mssql_login.py:100-120 | a missing login is created; an existing one is updated with the chosen `password_set` rule; a read failure stops the module |
| Login.EnsureAbsentPlan | plugins/modules/mssql_login.py:123-155 | `changed` if and only if the login exists, with `previous` the existing login; a live run drops it |
| Login.RunPlan | plugins/modules/mssql_login.py:26-61 | a validation error fails the module before anything is issued; otherwise `state` chooses between the two, under either `password_set` rule |
| Login.CheckModeMatchesLiveRun | plugins/modules/mssql_login.py:26-61 | under either rule, check mode issues nothing and reports what a live run reports wherever the live run does not raise |
| Login.RulesAgreeWithPassword | plugins/modules/mssql_login.py:323 | the module as written and the corrected module make the same plan unless a present SQL login is given no password |
| Login.AsWrittenRunWithoutPassword | plugins/modules/mssql_login.py:386-387 | as written, an existing SQL login with `update_password` `always` and no password is reported `changed` with `password_set` in check mode, and a live run commits the configuration statements and then raises `KeyError`; corrected, it does not raise and `password_set` is false |
| Login.ApplyUpdateStatements | plugins/modules/mssql_login.py:349-393 | a live update rewrites only the login's own row |
| Login.ReadAfterUpdate | plugins/modules/mssql_login.py:296-395 | reading the login after a live update finds the reported `current` |
| Login.ReadAfterCreate | plugins/modules/mssql_login.py:230-293 | reading the login after a live create finds exactly the reported `current` |
| Login.LoginTypeUnique | plugins/modules/mssql_login.py:204-219 | a type code belongs to one login type only |
| Login.SecondUpdateIsStable | plugins/modules/mssql_login.py:309-347 | when the options already hold, an update changes no configuration and reports no `previous` |
| Login.RunTwiceIsStable | plugins/modules/mssql_login.py:26-61 | with the corrected rule, after a live run a second run changes no configuration: it is `changed` only by setting the password again |
| Login.PasswordSetWithoutPassword | plugins/modules/mssql_login.py:323 | as written, an unchanged SQL login with no password is `changed` and a live run raises `KeyError`; corrected, nothing changes |
| Login.CreateLoginSession | plugins/modules/mssql_login.py:230-293 | performs `CreatePlan` on the session |
| Login.UpdateLoginSession | plugins/modules/mssql_login.py:296-395 | performs `UpdatePlan` under the chosen rule on the session: a type change fails through `handle_error`; without a password to set it commits the configuration statements and raises `KeyError`, leaving the session open |
| Login.EnsurePresent | plugins/modules/mssql_login.py:100-120 | performs `EnsurePresentPlan` under the chosen rule on the session |
| Login.EnsureAbsent | plugins/modules/mssql_login.py:123-155 | performs `EnsureAbsentPlan` on the session |
| Login.RunModule | plugins/modules/mssql_login.py:26-61 | performs `RunPlan` under the chosen rule; a failure is recorded only when the run fails; the session is closed unless an exception escapes |
| MssqlModuleBase.LoginKeysListed | plugins/module_utils/_mssql_module.py:14-19 | the four connection options, with `login_port` defaulting to 1433 |
| MssqlModuleBase.GenerateArgspec | plugins/module_utils/_mssql_module.py:98-112 | `TypeError` if and only if a module option repeats a connection option; otherwise the union of both, each keeping its entry |
| MssqlModuleBase.ArgspecCollision | plugins/module_utils/_mssql_module.py:109-112 | a module option named `login_port` cannot be merged |
| MssqlModuleBase.Closed | plugins/module_utils/_mssql_module.py:114-125 | both fields are cleared; the handles closed before are kept, followed by exactly the open cursor and then the open connection |
| MssqlModuleBase.CloseIdempotent | plugins/module_utils/_mssql_module.py:114-125 | closing twice closes nothing more |
| MssqlModuleBase.CloseOrder | plugins/module_utils/_mssql_module.py:119-125 | the cursor is closed before the connection |
| MssqlModuleBase.MssqlModule.constructor | plugins/module_utils/_mssql_module.py:87-88 | both session fields start as `None` |
| MssqlModuleBase.MssqlModule.InitializeClient | plugins/module_utils/_mssql_module.py:139-161 | once connected, both session fields are set |
| MssqlModuleBase.MssqlModule.CloseClientSession | plugins/module_utils/_mssql_module.py:114-125 | the new session state is `Closed` of the old, and no failure is recorded |
| MssqlModuleBase.MssqlModule.HandleError | plugins/module_utils/_mssql_module.py:127-137 | a module error closes the session and fails the module; any other value changes nothing |
| MssqlModuleBase.MssqlModule.GetDefinedNonConnectionParamsAsWritten | plugins/module_utils/_mssql_module.py:163-182 | raises `KeyError` if and only if a connection option is `None`, naming that option; otherwise the defined non-connection parameters |
| MssqlModuleBase.MssqlModule.GetDefinedNonConnectionParams | plugins/module_utils/_mssql_module.py:163-182 | exactly the parameters that are not connection options and not `None`, with their values |
| MssqlModuleBase.LoginPortNoneDeletesTwice | plugins/module_utils/_mssql_module.py:172-180 | `login_port` given as `None` is deleted by both loops |

## Left out

- Driver I/O: connecting and query failures are not modelled. `pymssql.connect` becomes the two handles `InitializeClient` receives. Every catalog read succeeds, so the `except` branches that call `handle_error` on a query failure do not occur.
- The import-failure branch (`HAS_PYMSSQL` false, and the stand-in class defined when `pymssql` is missing). The model assumes the driver is installed.
- Ansible option parsing: types, `choices`, defaults, `required`, `no_log` and the documentation YAML. Each module takes a typed parameter record in which an option that was not given, or was `None`, is `None`. The permission choices are assumed to be identifiers of lower-case letters, digits and `_`, which every listed choice is. The lists of permission names are not copied.
- SQL text: statements are structured values, so quoting, injection through names and the exact `USE`/`GO` batches are not modelled. `Catalog.Apply` is a presumed reading of each statement's effect, not the server's behaviour. In particular, what `CASCADE` does to grants made by the grantee is left out.
- Character handling: lower- and upper-casing are modelled for ASCII only. Name comparison is exact; there is no server collation.
- Messages: error texts and the `msg`/`exception` fields of `fail_json` are replaced by the `ModuleError` cases.
- Server reader: the server query has no `class_desc` filter and is modelled as written. Server rows are all of the server class here.
- Login `current` for non-SQL logins: the module leaves out the two password checks, which the model shows as `None`.
- MssqlModuleBase.MssqlModule.GetDefinedNonConnectionParamsAsWritten: which of several `None` connection options the `KeyError` names depends on dictionary order. The model only states that it names one of them.
- PermissionReader.ReadState, PermissionReader.QueryFor, DbObjectPermission.RunModule and DbObjectPermission.RunTwiceIsNoOp: the object module reads with the corrected reader (`minor_id = 0`), not the query of mssql_db_object_permission.py:436-452, which has no `minor_id` filter. The two agree when the principal holds no column-level permission on the object (`ReadersAgreeWithoutColumnRows`). When it does, the module as written is not idempotent (`ColumnGrantRerunReissuesDeny`). The model does not state the as-written module's run over such a catalog.
- Login.RunTwiceIsStable: proved for the corrected `password_set` only. As written, an existing SQL login given no password with `update_password` `always` is never stable: check mode always reports `changed`, and a live run raises (`AsWrittenRunWithoutPassword`).
- `exit_json`: the result dictionary is a `Report`, `LoginResult` or `bool` value, not a dictionary.

## Findings

| source | as written | input that shows it | evidently intended | confidence | as-written member | corrected member |
|---|---|---|---|---|---|---|
| plugins/modules/mssql_db_object_permission.py:441-451 | the object reader matches `major_id` only, so a column-level row counts as a row for the whole object; the statements the module issues never remove that row, so a rerun is not a no-op | a principal holding `SELECT` on one column of `dbo.orders` only, asked to be granted `SELECT` on `dbo.orders` | only object-level rows (`minor_id = 0`) decide the object's state | not executed | PermissionReader.ObjectPermissionStateAsWritten, DbObjectPermission.ColumnGrantHidesMissingObjectGrant, DbObjectPermission.ColumnGrantRerunReissuesDeny | PermissionReader.ObjectPermissionState |
| plugins/modules/mssql_login.py:323 | `password_set` holds for every SQL login when `update_password` is `always`, whether or not a password was given | an existing SQL login, no `password` option, `update_password` left at `always` | the password is set only when one was given (as `create_login` reports at line 257) | not executed | Login.UpdateLoginAsWritten, Login.PasswordSetWithoutPassword, Login.AsWrittenRunWithoutPassword | Login.UpdateLogin |
| plugins/module_utils/_mssql_module.py:172-180 | the second loop deletes every `None`-valued key, including a connection option the first loop already deleted, which raises `KeyError` | `login_port: null`, provided Ansible's argument validation lets the `None` through to the module (the option is an integer with default 1433, so it likely rejects it first); the text of lines 177-180 raises whenever a connection option reaches it as `None` | each key is removed at most once | not executed; reachability depends on Ansible's argument validation | MssqlModuleBase.MssqlModule.GetDefinedNonConnectionParamsAsWritten, MssqlModuleBase.LoginPortNoneDeletesTwice | MssqlModuleBase.MssqlModule.GetDefinedNonConnectionParams |
