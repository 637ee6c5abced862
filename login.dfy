/** `mssql_login`: make a server login present (created with defaults, or
    updated in place) or absent. */
module Login {
  import opened Common
  import opened Catalog
  import opened MssqlModuleBase

  /** The login types `format_login` can report. */
  datatype LoginType = Sql | Windows | Certificate | Azure | AsymmetricKey

  datatype UpdatePassword = Always | OnCreate

  /** The module's options after filtering: an option that was not given (or
      was `None`) is `None` here. `type` defaults to `sql`, `state` to
      `present`, `update_password` to `always`. */
  datatype LoginParams = LoginParams(
    name: string, loginType: LoginType, state: Presence, enabled: Option<bool>,
    password: Option<string>, updatePassword: UpdatePassword,
    expirationEnabled: Option<bool>, policyEnforced: Option<bool>)

  /** The `type` option's choices. */
  predicate TypeChoice(p: LoginParams) {
    p.loginType == Sql || p.loginType == Windows
  }

  /** The password options are only for a present SQL login. */
  predicate PasswordOptionsAbsent(p: LoginParams) {
    p.password.None? && p.expirationEnabled.None? && p.policyEnforced.None?
  }

  /** `validate_params`: the checks in order, the first failing one reported. */
  function ValidateParams(p: LoginParams): (r: Option<ModuleError>)
    ensures r.None? <==>
      && (p.state.Absent? || p.loginType != Sql ==> PasswordOptionsAbsent(p))
      && (p.state.Present? && p.loginType == Sql && p.expirationEnabled == Some(true) ==> p.policyEnforced == Some(true))
    ensures r == Some(PasswordNotValidForType) <==> p.state.Present? && p.loginType != Sql && p.password.Some?
    ensures r == Some(ExpirationNotValidForType) <==>
      p.state.Present? && p.loginType != Sql && p.password.None? && p.expirationEnabled.Some?
    ensures r == Some(PolicyNotValidForType) <==>
      p.state.Present? && p.loginType != Sql && p.password.None? && p.expirationEnabled.None? && p.policyEnforced.Some?
    ensures r == Some(ExpirationWithoutPolicy) <==>
      p.state.Present? && p.loginType == Sql && p.expirationEnabled.GetOr(false) && !p.policyEnforced.GetOr(false)
    ensures r == Some(PasswordNotValidWhenAbsent) <==> p.state.Absent? && p.password.Some?
    ensures r == Some(ExpirationNotValidWhenAbsent) <==>
      p.state.Absent? && p.password.None? && p.expirationEnabled.Some?
    ensures r == Some(PolicyNotValidWhenAbsent) <==>
      p.state.Absent? && p.password.None? && p.expirationEnabled.None? && p.policyEnforced.Some?
    ensures r.Some? ==> r.value in {PasswordNotValidForType, ExpirationNotValidForType, PolicyNotValidForType,
                                    ExpirationWithoutPolicy, PasswordNotValidWhenAbsent,
                                    ExpirationNotValidWhenAbsent, PolicyNotValidWhenAbsent}
  {
    if p.state.Present? then
      if p.loginType != Sql then
        if p.password.Some? then Some(PasswordNotValidForType)
        else if p.expirationEnabled.Some? then Some(ExpirationNotValidForType)
        else if p.policyEnforced.Some? then Some(PolicyNotValidForType)
        else None
      else if p.expirationEnabled.GetOr(false) && !p.policyEnforced.GetOr(false) then Some(ExpirationWithoutPolicy)
      else None
    else if p.password.Some? then Some(PasswordNotValidWhenAbsent)
    else if p.expirationEnabled.Some? then Some(ExpirationNotValidWhenAbsent)
    else if p.policyEnforced.Some? then Some(PolicyNotValidWhenAbsent)
    else None
  }

  /** The principal type codes of each login type. */
  function CodesOf(t: LoginType): set<char> {
    match t
    case Sql => {'S'}
    case Windows => {'U', 'G'}
    case Certificate => {'C'}
    case Azure => {'E', 'X'}
    case AsymmetricKey => {'K'}
  }

  /** The type-code branches of `format_login`. */
  function LoginTypeOf(code: char): (r: Option<LoginType>)
    ensures forall t :: r == Some(t) <==> code in CodesOf(t)
  {
    if code == 'S' then Some(Sql)
    else if code == 'U' || code == 'G' then Some(Windows)
    else if code == 'C' then Some(Certificate)
    else if code == 'E' || code == 'X' then Some(Azure)
    else if code == 'K' then Some(AsymmetricKey)
    else None
  }

  /** A login as the module reports it (`current` and `previous`). The two
      password checks are `None` where the catalog has no SQL login row or,
      in `current`, where the module leaves the key out. */
  datatype LoginInfo = LoginInfo(
    name: string, loginType: LoginType, enabled: bool,
    expirationEnabled: Option<bool>, policyEnforced: Option<bool>)

  /** `format_login`: an unknown type code fails the module; `enabled` is the
      negation of `is_disabled`; the checks are passed through. */
  function FormatLogin(name: string, row: LoginRow): (r: Outcome<LoginInfo>)
    ensures !r.Crash?
    ensures r.Fail? <==> forall t :: row.typeCode !in CodesOf(t)
    ensures r.Fail? ==> r.error == UnknownLoginType(row.typeCode)
    ensures r.Done? ==> row.typeCode in CodesOf(r.value.loginType)
    ensures r.Done? ==> r.value.name == name && r.value.enabled == !row.isDisabled
    ensures r.Done? ==> r.value.expirationEnabled == row.isExpirationChecked && r.value.policyEnforced == row.isPolicyChecked
  {
    match LoginTypeOf(row.typeCode)
    case None => Fail(UnknownLoginType(row.typeCode))
    case Some(t) => Done(LoginInfo(name, t, !row.isDisabled, row.isExpirationChecked, row.isPolicyChecked))
  }

  /** `get_login`: no server principal of that name is `None`. */
  function GetLogin(c: Catalog, name: string): (r: Outcome<Option<LoginInfo>>)
    ensures !r.Crash?
    ensures r == Done(None) <==> name !in c.serverPrincipals
    ensures r.Fail? ==> name in c.serverPrincipals && r == Fail(UnknownLoginType(c.serverPrincipals[name].typeCode))
  {
    if name !in c.serverPrincipals then Done(None)
    else
      match FormatLogin(name, c.serverPrincipals[name])
      case Done(info) => Done(Some(info))
      case Fail(e) => Fail(e)
      case Crash(x) => Crash(x)
  }

  /** The module result; an absent key is `None`. */
  datatype LoginResult = LoginResult(
    changed: bool, passwordSet: Option<bool>, current: Option<LoginInfo>, previous: Option<LoginInfo>)

  /** The `current` of `create_login`: SQL logins default to enabled, no
      expiration check and policy check on; other logins report only `enabled`. */
  function CreatedLogin(p: LoginParams): (r: LoginInfo)
    ensures r.name == p.name && r.loginType == p.loginType
    ensures p.enabled.None? ==> r.enabled
    ensures p.loginType == Sql && p.expirationEnabled.None? ==> r.expirationEnabled == Some(false)
    ensures p.loginType == Sql && p.policyEnforced.None? ==> r.policyEnforced == Some(true)
    ensures p.loginType == Sql ==> r.expirationEnabled.Some? && r.policyEnforced.Some?
    ensures p.loginType != Sql ==> r.expirationEnabled.None? && r.policyEnforced.None?
  {
    if p.loginType == Sql then
      LoginInfo(p.name, p.loginType, p.enabled.GetOr(true),
                Some(p.expirationEnabled.GetOr(false)), Some(p.policyEnforced.GetOr(true)))
    else LoginInfo(p.name, p.loginType, p.enabled.GetOr(true), None, None)
  }

  /** The `CREATE LOGIN` of a live run. */
  function CreateStatement(p: LoginParams): Statement
    requires p.loginType == Sql ==> p.password.Some?
  {
    var current := CreatedLogin(p);
    if p.loginType == Sql
    then CreateSqlLogin(p.name, p.password.value, current.expirationEnabled.value, current.policyEnforced.value)
    else CreateWindowsLogin(p.name)
  }

  /** `create_login`: always `changed`; `password_set` exactly when a password
      was given. A live run of a SQL login without a password raises
      `KeyError` before issuing anything; otherwise it creates the login and
      disables it when asked to. */
  function CreatePlan(p: LoginParams, checkMode: bool): (r: Plan<LoginResult>)
    requires TypeChoice(p)
    ensures !r.outcome.Fail?
    ensures r.outcome.Crash? <==> !checkMode && p.loginType == Sql && p.password.None?
    ensures r.outcome.Crash? ==> r.outcome.exception == KeyError("password") && r.statements == []
    ensures r.outcome.Done? ==>
      r.outcome.value == LoginResult(true, Some(p.password.Some?), Some(CreatedLogin(p)), None)
    ensures checkMode ==> r.statements == []
  {
    var result := LoginResult(true, Some(p.password.Some?), Some(CreatedLogin(p)), None);
    if checkMode then Plan(Done(result), [])
    else if p.loginType == Sql && p.password.None? then Plan(Crash(KeyError("password")), [])
    else Plan(Done(result), [CreateStatement(p)] + (if !p.enabled.GetOr(true) then [AlterLoginEnabled(p.name, false)] else []))
  }

  /** What `update_login` decides before issuing anything. */
  datatype UpdateDecision = UpdateDecision(
    current: LoginInfo, enabledChanged: bool, policyChanged: bool, expirationChanged: bool, passwordSet: bool)

  /** `password_set` as written: for a SQL login, whenever `update_password`
      is `always`, whether or not a password was given. */
  function PasswordSetAsWritten(p: LoginParams): bool {
    p.loginType == Sql && p.updatePassword == Always
  }

  /** `password_set` as `create_login` and the `always` option mean it: a
      password was given and may be updated. */
  function PasswordSet(p: LoginParams): (r: bool)
    ensures r ==> p.password.Some?
    ensures r ==> PasswordSetAsWritten(p)
    ensures PasswordSetAsWritten(p) && p.password.Some? ==> r
  {
    p.loginType == Sql && p.updatePassword == Always && p.password.Some?
  }

  /** Which `password_set` the module path computes: the flag as written, or
      the corrected one. */
  datatype PasswordRule = AsWritten | Corrected

  function PasswordSetBy(rule: PasswordRule, p: LoginParams): bool {
    if rule.AsWritten? then PasswordSetAsWritten(p) else PasswordSet(p)
  }

  /** The `current` of `update_login` and its change flags: an option not
      given keeps the existing value, and only a SQL login has password checks. */
  function Decide(p: LoginParams, existing: LoginInfo, passwordSet: bool): (d: UpdateDecision)
    ensures d.current.name == p.name && d.current.loginType == p.loginType
    ensures d.current.enabled == p.enabled.GetOr(existing.enabled)
    ensures d.enabledChanged <==> d.current.enabled != existing.enabled
    ensures d.policyChanged <==> p.loginType == Sql && p.policyEnforced.Some? && p.policyEnforced != existing.policyEnforced
    ensures d.expirationChanged <==> p.loginType == Sql && p.expirationEnabled.Some? && p.expirationEnabled != existing.expirationEnabled
    ensures p.loginType == Sql ==>
      d.current.policyEnforced == (if p.policyEnforced.Some? then p.policyEnforced else existing.policyEnforced)
    ensures p.loginType == Sql ==>
      d.current.expirationEnabled == (if p.expirationEnabled.Some? then p.expirationEnabled else existing.expirationEnabled)
    ensures p.loginType != Sql ==> d.current.policyEnforced.None? && d.current.expirationEnabled.None?
    ensures d.passwordSet <==> p.loginType == Sql && passwordSet
  {
    var enabled := p.enabled.GetOr(existing.enabled);
    if p.loginType == Sql then
      var current := LoginInfo(p.name, p.loginType, enabled,
                               if p.expirationEnabled.Some? then p.expirationEnabled else existing.expirationEnabled,
                               if p.policyEnforced.Some? then p.policyEnforced else existing.policyEnforced);
      UpdateDecision(current, enabled != existing.enabled,
                     current.policyEnforced != existing.policyEnforced,
                     current.expirationEnabled != existing.expirationEnabled, passwordSet)
    else
      UpdateDecision(LoginInfo(p.name, p.loginType, enabled, None, None), enabled != existing.enabled, false, false, false)
  }

  function ConfigChanged(d: UpdateDecision): bool {
    d.enabledChanged || d.policyChanged || d.expirationChanged
  }

  /** `changed` is `password_set` or `config_changed`; `previous` only when the
      configuration changes. */
  function UpdateResult(existing: LoginInfo, d: UpdateDecision): (r: LoginResult)
    ensures r.changed <==> d.passwordSet || ConfigChanged(d)
    ensures r.previous.Some? <==> ConfigChanged(d)
    ensures r.previous.Some? ==> r.previous.value == existing
    ensures r.passwordSet == Some(d.passwordSet) && r.current == Some(d.current)
  {
    LoginResult(d.passwordSet || ConfigChanged(d), Some(d.passwordSet), Some(d.current),
                if ConfigChanged(d) then Some(existing) else None)
  }

  /** The position of each `ALTER LOGIN` in the fixed order. */
  function Rank(st: Statement): nat {
    match st
    case AlterLoginEnabled(_, _) => 0
    case AlterLoginCheckPolicy(_, _) => 1
    case AlterLoginCheckExpiration(_, _) => 2
    case _ => 3
  }

  function When(flag: bool, st: Statement): seq<Statement> {
    if flag then [st] else []
  }

  /** The configuration statements of a live update: enable/disable, then
      `CHECK_POLICY`, then `CHECK_EXPIRATION`, each only when its flag is set. */
  function ConfigStatements(name: string, d: UpdateDecision): (r: seq<Statement>)
    ensures forall i, j :: 0 <= i < j < |r| ==> Rank(r[i]) < Rank(r[j])
    ensures forall st :: st in r ==> Rank(st) < 3
    ensures AlterLoginEnabled(name, d.current.enabled) in r <==> d.enabledChanged
    ensures AlterLoginCheckPolicy(name, d.current.policyEnforced.GetOr(false)) in r <==> d.policyChanged
    ensures AlterLoginCheckExpiration(name, d.current.expirationEnabled.GetOr(false)) in r <==> d.expirationChanged
    ensures |r| <= 3
  {
    When(d.enabledChanged, AlterLoginEnabled(name, d.current.enabled))
      + When(d.policyChanged, AlterLoginCheckPolicy(name, d.current.policyEnforced.GetOr(false)))
      + When(d.expirationChanged, AlterLoginCheckExpiration(name, d.current.expirationEnabled.GetOr(false)))
  }

  /** `update_login` for a given way of computing `password_set`: a type
      change fails before anything; check mode issues nothing; a live run
      issues the configuration statements and then, when `password_set`, the
      password, which raises `KeyError` if no password was given. */
  function UpdatePlan(p: LoginParams, existing: LoginInfo, passwordSet: bool, checkMode: bool): (r: Plan<LoginResult>)
    ensures r.outcome.Fail? <==> p.loginType != existing.loginType
    ensures r.outcome.Fail? ==> r.outcome.error == LoginTypeChange && r.statements == []
    ensures r.outcome.Crash? <==> p.loginType == existing.loginType && !checkMode && p.loginType == Sql && passwordSet && p.password.None?
    ensures r.outcome.Done? ==> r.outcome.value == UpdateResult(existing, Decide(p, existing, passwordSet))
    ensures checkMode ==> r.statements == []
    ensures forall i, j :: 0 <= i < j < |r.statements| ==> Rank(r.statements[i]) < Rank(r.statements[j])
    ensures r.outcome.Done? && !checkMode ==>
      (AlterLoginPassword(p.name, p.password.GetOr("")) in r.statements <==> p.loginType == Sql && passwordSet)
  {
    var d := Decide(p, existing, passwordSet);
    if p.loginType != existing.loginType then Plan(Fail(LoginTypeChange), [])
    else if checkMode then Plan(Done(UpdateResult(existing, d)), [])
    else if d.passwordSet && p.password.None? then Plan(Crash(KeyError("password")), ConfigStatements(p.name, d))
    else
      var cfg := ConfigStatements(p.name, d);
      var pw := When(d.passwordSet, AlterLoginPassword(p.name, p.password.GetOr("")));
      assert forall st :: st in pw ==> Rank(st) == 3;
      assert AlterLoginPassword(p.name, p.password.GetOr("")) !in cfg;
      Plan(Done(UpdateResult(existing, d)), cfg + pw)
  }

  /** The update as written: an unchanged SQL login with `update_password`
      `always` is reported changed on every run, and a live run given no
      password raises `KeyError` once the configuration statements are issued. */
  function UpdateLoginAsWritten(p: LoginParams, existing: LoginInfo, checkMode: bool): (r: Plan<LoginResult>)
    ensures r.outcome.Done? && p.loginType == Sql && p.updatePassword == Always ==> r.outcome.value.changed
    ensures p.loginType == existing.loginType == Sql && p.updatePassword == Always && p.password.None? && !checkMode ==>
      r.outcome == Crash(KeyError("password"))
  {
    UpdatePlan(p, existing, PasswordSetAsWritten(p), checkMode)
  }

  /** The update with `password_set` requiring a password: it never raises,
      and a live run issues the statements in the fixed order, the password last. */
  function UpdateLogin(p: LoginParams, existing: LoginInfo, checkMode: bool): (r: Plan<LoginResult>)
    ensures !r.outcome.Crash?
    ensures forall i, j :: 0 <= i < j < |r.statements| ==> Rank(r.statements[i]) < Rank(r.statements[j])
    ensures r.outcome.Done? && !checkMode ==>
      (AlterLoginPassword(p.name, p.password.GetOr("")) in r.statements <==> PasswordSet(p))
  {
    UpdatePlan(p, existing, PasswordSet(p), checkMode)
  }

  /** `ensure_present`: create a missing login, update an existing one with
      `password_set` computed by the rule. */
  function EnsurePresentPlan(c: Catalog, p: LoginParams, rule: PasswordRule, checkMode: bool): (r: Plan<LoginResult>)
    requires TypeChoice(p)
    ensures GetLogin(c, p.name) == Done(None) ==> r == CreatePlan(p, checkMode)
    ensures GetLogin(c, p.name).Fail? ==> r == Plan(Fail(GetLogin(c, p.name).error), [])
    ensures GetLogin(c, p.name).Done? && GetLogin(c, p.name).value.Some? ==>
      r == UpdatePlan(p, GetLogin(c, p.name).value.value, PasswordSetBy(rule, p), checkMode)
  {
    match GetLogin(c, p.name)
    case Fail(e) => Plan(Fail(e), [])
    case Crash(x) => Plan(Crash(x), [])
    case Done(None) => CreatePlan(p, checkMode)
    case Done(Some(existing)) => UpdatePlan(p, existing, PasswordSetBy(rule, p), checkMode)
  }

  /** `ensure_absent`: nothing to do for a missing login; an existing one is
      reported as `previous` and dropped by a live run. */
  function EnsureAbsentPlan(c: Catalog, p: LoginParams, checkMode: bool): (r: Plan<LoginResult>)
    ensures !r.outcome.Crash?
    ensures r.outcome.Done? <==> GetLogin(c, p.name).Done?
    ensures r.outcome.Done? ==> (r.outcome.value.changed <==> p.name in c.serverPrincipals)
    ensures r.outcome.Done? ==> r.outcome.value.previous == GetLogin(c, p.name).value
    ensures checkMode || !r.outcome.Done? ==> r.statements == []
    ensures !checkMode ==> p.name !in ApplyAll(c, r.statements).serverPrincipals || GetLogin(c, p.name).Fail?
  {
    match GetLogin(c, p.name)
    case Fail(e) => Plan(Fail(e), [])
    case Crash(x) => Plan(Crash(x), [])
    case Done(None) => Plan(Done(LoginResult(false, None, None, None)), [])
    case Done(Some(existing)) =>
      var result := LoginResult(true, None, None, Some(existing));
      if checkMode then Plan(Done(result), [])
      else
        assert ApplyAll(Apply(c, DropLogin(p.name)), []) == Apply(c, DropLogin(p.name));
        Plan(Done(result), [DropLogin(p.name)])
  }

  /** The whole module: validation, then one of the two. */
  function RunPlan(c: Catalog, p: LoginParams, rule: PasswordRule, checkMode: bool): (r: Plan<LoginResult>)
    requires TypeChoice(p)
    ensures ValidateParams(p).Some? ==> r == Plan(Fail(ValidateParams(p).value), [])
    ensures ValidateParams(p).None? && p.state.Absent? ==> r == EnsureAbsentPlan(c, p, checkMode)
    ensures ValidateParams(p).None? && p.state.Present? ==> r == EnsurePresentPlan(c, p, rule, checkMode)
  {
    if ValidateParams(p).Some? then Plan(Fail(ValidateParams(p).value), [])
    else if p.state.Present? then EnsurePresentPlan(c, p, rule, checkMode)
    else EnsureAbsentPlan(c, p, checkMode)
  }

  /** Check mode never issues a statement and, wherever the live run does not
      raise, reports what the live run reports; under either rule. */
  lemma CheckModeMatchesLiveRun(c: Catalog, p: LoginParams, rule: PasswordRule)
    requires TypeChoice(p)
    ensures RunPlan(c, p, rule, true).statements == []
    ensures !RunPlan(c, p, rule, false).outcome.Crash? ==> RunPlan(c, p, rule, true).outcome == RunPlan(c, p, rule, false).outcome
  {
  }

  /** The two rules differ only where a present SQL login is given no password. */
  lemma RulesAgreeWithPassword(c: Catalog, p: LoginParams, checkMode: bool)
    requires TypeChoice(p)
    requires p.state.Present? && p.loginType == Sql ==> p.password.Some?
    ensures RunPlan(c, p, AsWritten, checkMode) == RunPlan(c, p, Corrected, checkMode)
  {
  }

  /** The module as written on an existing SQL login given no password with
      `update_password` `always`: check mode reports `changed` and
      `password_set` on every run, and a live run commits the configuration
      statements and then raises `KeyError`, leaving the session open. The
      corrected module never raises there. */
  lemma AsWrittenRunWithoutPassword(c: Catalog, p: LoginParams, existing: LoginInfo)
    requires TypeChoice(p) && ValidateParams(p).None?
    requires p.state.Present? && p.loginType == Sql && p.password.None? && p.updatePassword == Always
    requires GetLogin(c, p.name) == Done(Some(existing)) && existing.loginType == Sql
    ensures RunPlan(c, p, AsWritten, true).outcome.Done?
    ensures RunPlan(c, p, AsWritten, true).outcome.value.changed
    ensures RunPlan(c, p, AsWritten, true).outcome.value.passwordSet == Some(true)
    ensures RunPlan(c, p, AsWritten, false) == Plan(Crash(KeyError("password")), ConfigStatements(p.name, Decide(p, existing, true)))
    ensures RunPlan(c, p, Corrected, false).outcome.Done?
    ensures RunPlan(c, p, Corrected, false).outcome.value.passwordSet == Some(false)
  {
    assert PasswordSetBy(AsWritten, p) && !PasswordSetBy(Corrected, p);
  }

  /** The row a live update leaves behind. */
  function AlteredRow(row: LoginRow, d: UpdateDecision): LoginRow {
    row.(isDisabled := if d.enabledChanged then !d.current.enabled else row.isDisabled,
         isPolicyChecked := if d.policyChanged then Some(d.current.policyEnforced.GetOr(false)) else row.isPolicyChecked,
         isExpirationChecked := if d.expirationChanged then Some(d.current.expirationEnabled.GetOr(false)) else row.isExpirationChecked)
  }

  /** Applying the statements of an optional step. */
  lemma ApplyWhen(c: Catalog, sts: seq<Statement>, flag: bool, st: Statement)
    ensures ApplyAll(c, sts + When(flag, st)) == if flag then Apply(ApplyAll(c, sts), st) else ApplyAll(c, sts)
  {
    if flag {
      ApplyAllSnoc(c, sts, st);
    } else {
      assert sts + When(flag, st) == sts;
    }
  }

  /** The catalog with one login's row replaced. */
  function WithRow(c: Catalog, name: string, row: LoginRow): Catalog {
    c.(serverPrincipals := c.serverPrincipals[name := row])
  }

  /** Replacing the same row twice keeps the second. */
  lemma WithRowTwice(c: Catalog, name: string, a: LoginRow, b: LoginRow)
    ensures WithRow(WithRow(c, name, a), name, b) == WithRow(c, name, b)
  {
    assert c.serverPrincipals[name := a][name := b] == c.serverPrincipals[name := b];
  }

  /** One optional step of a live update, applied on top of the earlier ones. */
  lemma WhenStep(c: Catalog, sts: seq<Statement>, flag: bool, st: Statement, name: string, row: LoginRow, row': LoginRow)
    requires ApplyAll(c, sts) == WithRow(c, name, row)
    requires flag ==> Apply(WithRow(c, name, row), st) == WithRow(c, name, row')
    requires !flag ==> row' == row
    ensures ApplyAll(c, sts + When(flag, st)) == WithRow(c, name, row')
  {
    ApplyWhen(c, sts, flag, st);
  }

  /** A live update changes only the login's own row, as `AlteredRow` says. */
  lemma ApplyUpdateStatements(c: Catalog, name: string, d: UpdateDecision, password: string)
    requires name in c.serverPrincipals
    ensures ApplyAll(c, ConfigStatements(name, d) + When(d.passwordSet, AlterLoginPassword(name, password)))
         == WithRow(c, name, AlteredRow(c.serverPrincipals[name], d))
  {
    var row0 := c.serverPrincipals[name];
    var e := When(d.enabledChanged, AlterLoginEnabled(name, d.current.enabled));
    var pol := When(d.policyChanged, AlterLoginCheckPolicy(name, d.current.policyEnforced.GetOr(false)));
    var x := When(d.expirationChanged, AlterLoginCheckExpiration(name, d.current.expirationEnabled.GetOr(false)));
    assert ApplyAll(c, []) == WithRow(c, name, row0) by {
      assert c.serverPrincipals[name := row0] == c.serverPrincipals;
    }
    var row1 := if d.enabledChanged then row0.(isDisabled := !d.current.enabled) else row0;
    WithRowTwice(c, name, row0, row1);
    assert e == [] + e;
    WhenStep(c, [], d.enabledChanged, AlterLoginEnabled(name, d.current.enabled), name, row0, row1);
    var row2 := if d.policyChanged then row1.(isPolicyChecked := Some(d.current.policyEnforced.GetOr(false))) else row1;
    WithRowTwice(c, name, row1, row2);
    WhenStep(c, e, d.policyChanged, AlterLoginCheckPolicy(name, d.current.policyEnforced.GetOr(false)), name, row1, row2);
    var row3 := if d.expirationChanged then row2.(isExpirationChecked := Some(d.current.expirationEnabled.GetOr(false))) else row2;
    WithRowTwice(c, name, row2, row3);
    WhenStep(c, e + pol, d.expirationChanged, AlterLoginCheckExpiration(name, d.current.expirationEnabled.GetOr(false)), name, row2, row3);
    WhenStep(c, e + pol + x, d.passwordSet, AlterLoginPassword(name, password), name, row3, row3);
    assert row3 == AlteredRow(row0, d);
  }

  /** Reading the login after a live update finds the reported `current`:
      all of it for a SQL login, its type and enablement for the others. */
  lemma ReadAfterUpdate(c: Catalog, p: LoginParams, existing: LoginInfo)
    requires GetLogin(c, p.name) == Done(Some(existing))
    requires p.loginType == existing.loginType
    ensures var d := Decide(p, existing, PasswordSet(p));
      var after := ApplyAll(c, UpdateLogin(p, existing, false).statements);
      && GetLogin(after, p.name).Done? && GetLogin(after, p.name).value.Some?
      && GetLogin(after, p.name).value.value.loginType == existing.loginType
      && GetLogin(after, p.name).value.value.enabled == d.current.enabled
      && (p.loginType == Sql ==> GetLogin(after, p.name) == Done(Some(d.current)))
  {
    var d := Decide(p, existing, PasswordSet(p));
    ApplyUpdateStatements(c, p.name, d, p.password.GetOr(""));
    assert UpdateLogin(p, existing, false).statements
        == ConfigStatements(p.name, d) + When(d.passwordSet, AlterLoginPassword(p.name, p.password.GetOr("")));
    var row := c.serverPrincipals[p.name];
    var row' := AlteredRow(row, d);
    var after := ApplyAll(c, UpdateLogin(p, existing, false).statements);
    assert after.serverPrincipals[p.name] == row';
    LoginTypeUnique(row.typeCode, existing.loginType);
    assert existing.policyEnforced == row.isPolicyChecked && existing.expirationEnabled == row.isExpirationChecked;
    if p.loginType == Sql {
      assert row'.isPolicyChecked == d.current.policyEnforced by {
        if d.policyChanged {
          assert d.current.policyEnforced == p.policyEnforced == Some(p.policyEnforced.value);
        } else {
          assert row'.isPolicyChecked == row.isPolicyChecked;
        }
      }
      assert row'.isExpirationChecked == d.current.expirationEnabled by {
        if d.expirationChanged {
          assert d.current.expirationEnabled == p.expirationEnabled == Some(p.expirationEnabled.value);
        } else {
          assert row'.isExpirationChecked == row.isExpirationChecked;
        }
      }
    }
  }

  /** A type code names one login type only. */
  lemma LoginTypeUnique(code: char, t: LoginType)
    requires code in CodesOf(t)
    ensures LoginTypeOf(code) == Some(t)
  {
  }

  /** Reading the login after a live create finds exactly the reported `current`. */
  lemma ReadAfterCreate(c: Catalog, p: LoginParams)
    requires TypeChoice(p)
    requires CreatePlan(p, false).outcome.Done?
    ensures GetLogin(ApplyAll(c, CreatePlan(p, false).statements), p.name) == Done(Some(CreatedLogin(p)))
  {
    var create := CreateStatement(p);
    var mid := Apply(c, create);
    assert ApplyAll(mid, []) == mid;
    ApplyWhen(c, [create], !p.enabled.GetOr(true), AlterLoginEnabled(p.name, false));
    assert ApplyAll(c, [create]) == mid;
  }

  /** Running the module a second time with the same options, from the state
      a live run left, changes no configuration: it reports `changed` only to
      set the password again, and issues nothing else. */
  lemma RunTwiceIsStable(c: Catalog, p: LoginParams, checkMode: bool)
    requires TypeChoice(p)
    requires p.state.Present?
    requires RunPlan(c, p, Corrected, false).outcome.Done?
    ensures var after := ApplyAll(c, RunPlan(c, p, Corrected, false).statements);
      var second := RunPlan(after, p, Corrected, checkMode);
      && second.outcome.Done?
      && (second.outcome.value.changed <==> PasswordSet(p))
      && second.outcome.value.previous.None?
      && second.statements == (if PasswordSet(p) && !checkMode then [AlterLoginPassword(p.name, p.password.value)] else [])
  {
    var after := ApplyAll(c, RunPlan(c, p, Corrected, false).statements);
    match GetLogin(c, p.name)
    case Done(None) =>
      ReadAfterCreate(c, p);
      SecondUpdateIsStable(after, p, CreatedLogin(p), checkMode);
    case Done(Some(existing)) =>
      ReadAfterUpdate(c, p, existing);
      var d := Decide(p, existing, PasswordSet(p));
      var reread := GetLogin(after, p.name).value.value;
      SecondUpdateIsStable(after, p, reread, checkMode);
  }

  /** An update whose options already hold in the login changes no configuration. */
  lemma SecondUpdateIsStable(c: Catalog, p: LoginParams, existing: LoginInfo, checkMode: bool)
    requires GetLogin(c, p.name) == Done(Some(existing))
    requires existing.loginType == p.loginType
    requires p.enabled.Some? ==> existing.enabled == p.enabled.value
    requires p.loginType == Sql && p.policyEnforced.Some? ==> existing.policyEnforced == p.policyEnforced
    requires p.loginType == Sql && p.expirationEnabled.Some? ==> existing.expirationEnabled == p.expirationEnabled
    ensures var second := UpdateLogin(p, existing, checkMode);
      && second.outcome.Done?
      && (second.outcome.value.changed <==> PasswordSet(p))
      && second.outcome.value.previous.None?
      && second.statements == (if PasswordSet(p) && !checkMode then [AlterLoginPassword(p.name, p.password.value)] else [])
  {
    var d := Decide(p, existing, PasswordSet(p));
    assert !ConfigChanged(d);
    assert ConfigStatements(p.name, d) == [];
  }

  /** The as-written `password_set` on an unchanged SQL login given no
      password: check mode reports a change on every run and a live run raises
      `KeyError`; with the corrected flag nothing changes and nothing is issued. */
  lemma PasswordSetWithoutPassword(existing: LoginInfo)
    requires existing.loginType == Sql
    ensures var p := LoginParams(existing.name, Sql, Present, None, None, Always, None, None);
      && UpdateLoginAsWritten(p, existing, true).outcome.value.changed
      && UpdateLoginAsWritten(p, existing, false).outcome == Crash(KeyError("password"))
      && UpdateLogin(p, existing, true) == UpdateLogin(p, existing, false)
      && UpdateLogin(p, existing, false).outcome.value == LoginResult(false, Some(false), Some(existing), None)
      && UpdateLogin(p, existing, false).statements == []
  {
    var p := LoginParams(existing.name, Sql, Present, None, None, Always, None, None);
    assert Decide(p, existing, false).current == existing;
  }

  /** `create_login` with inline statements. */
  method CreateLoginSession(m: MssqlModule, s: Session, p: LoginParams) returns (o: Outcome<LoginResult>)
    requires TypeChoice(p)
    modifies s
    ensures o == CreatePlan(p, m.checkMode).outcome
    ensures s.issued == old(s.issued) + CreatePlan(p, m.checkMode).statements
    ensures s.catalog == ApplyAll(old(s.catalog), CreatePlan(p, m.checkMode).statements)
  {
    var current := CreatedLogin(p);
    var result := LoginResult(true, Some(p.password.Some?), Some(current), None);
    if !m.checkMode {
      var create: Statement;
      if p.loginType == Sql {
        if p.password.None? {
          return Crash(KeyError("password"));
        }
        create := CreateSqlLogin(p.name, p.password.value, current.expirationEnabled.value, current.policyEnforced.value);
      } else {
        create := CreateWindowsLogin(p.name);
      }
      s.Execute(create);
      ApplyAllSnoc(old(s.catalog), [], create);
      assert [] + [create] == [create];
      if !p.enabled.GetOr(true) {
        s.Execute(AlterLoginEnabled(p.name, false));
      }
      ApplyWhen(old(s.catalog), [create], !p.enabled.GetOr(true), AlterLoginEnabled(p.name, false));
    }
    return Done(result);
  }

  /** Executes the statement when the flag is set. */
  method ExecuteWhen(s: Session, flag: bool, st: Statement)
    modifies s
    ensures s.issued == old(s.issued) + When(flag, st)
    ensures s.catalog == ApplyAll(old(s.catalog), When(flag, st))
  {
    if flag {
      s.Execute(st);
      assert ApplyAll(s.catalog, []) == s.catalog;
    } else {
      assert old(s.issued) + [] == old(s.issued);
    }
  }

  /** Executes the next group of statements of an update. */
  method ExecuteNext(s: Session, ghost c0: Catalog, ghost i0: seq<Statement>, ghost done: seq<Statement>, flag: bool, st: Statement)
    requires s.catalog == ApplyAll(c0, done) && s.issued == i0 + done
    modifies s
    ensures s.catalog == ApplyAll(c0, done + When(flag, st)) && s.issued == i0 + (done + When(flag, st))
  {
    ExecuteWhen(s, flag, st);
    ApplyAllConcat(c0, done, When(flag, st));
  }

  /** `update_login` with `password_set` computed by the rule, issuing its
      statements one by one in the fixed order; the password statement's
      missing option raises once the configuration is committed. */
  method UpdateLoginSession(m: MssqlModule, s: Session, p: LoginParams, rule: PasswordRule, existing: LoginInfo)
    returns (o: Outcome<LoginResult>)
    modifies m, s
    ensures o == UpdatePlan(p, existing, PasswordSetBy(rule, p), m.checkMode).outcome
    ensures s.issued == old(s.issued) + UpdatePlan(p, existing, PasswordSetBy(rule, p), m.checkMode).statements
    ensures s.catalog == ApplyAll(old(s.catalog), UpdatePlan(p, existing, PasswordSetBy(rule, p), m.checkMode).statements)
    ensures o.Fail? ==> m.State() == Closed(old(m.State())) && m.failure == Some(o.error)
    ensures !o.Fail? ==> m.State() == old(m.State()) && m.failure == old(m.failure)
  {
    if p.loginType != existing.loginType {
      m.HandleError(Some(LoginTypeChange));
      return Fail(LoginTypeChange);
    }
    var d := Decide(p, existing, PasswordSetBy(rule, p));
    var result := UpdateResult(existing, d);
    if !m.checkMode {
      var name := p.name;
      ghost var c0, i0 := s.catalog, s.issued;
      var e := When(d.enabledChanged, AlterLoginEnabled(name, d.current.enabled));
      var pol := When(d.policyChanged, AlterLoginCheckPolicy(name, d.current.policyEnforced.GetOr(false)));
      var x := When(d.expirationChanged, AlterLoginCheckExpiration(name, d.current.expirationEnabled.GetOr(false)));
      assert ApplyAll(c0, []) == c0 && i0 + [] == i0;
      ExecuteNext(s, c0, i0, [], d.enabledChanged, AlterLoginEnabled(name, d.current.enabled));
      assert [] + e == e;
      ExecuteNext(s, c0, i0, e, d.policyChanged, AlterLoginCheckPolicy(name, d.current.policyEnforced.GetOr(false)));
      ExecuteNext(s, c0, i0, e + pol, d.expirationChanged, AlterLoginCheckExpiration(name, d.current.expirationEnabled.GetOr(false)));
      if d.passwordSet && p.password.None? {
        assert UpdatePlan(p, existing, PasswordSetBy(rule, p), false).statements == e + pol + x;
        return Crash(KeyError("password"));
      }
      ExecuteNext(s, c0, i0, e + pol + x, d.passwordSet, AlterLoginPassword(name, p.password.GetOr("")));
      assert UpdatePlan(p, existing, PasswordSetBy(rule, p), false).statements
          == e + pol + x + When(d.passwordSet, AlterLoginPassword(name, p.password.GetOr("")));
    }
    return Done(result);
  }

  /** `ensure_present`. */
  method EnsurePresent(m: MssqlModule, s: Session, p: LoginParams, rule: PasswordRule) returns (o: Outcome<LoginResult>)
    requires TypeChoice(p)
    modifies m, s
    ensures o == EnsurePresentPlan(old(s.catalog), p, rule, m.checkMode).outcome
    ensures s.issued == old(s.issued) + EnsurePresentPlan(old(s.catalog), p, rule, m.checkMode).statements
    ensures s.catalog == ApplyAll(old(s.catalog), EnsurePresentPlan(old(s.catalog), p, rule, m.checkMode).statements)
    ensures o.Fail? ==> m.State() == Closed(old(m.State())) && m.failure == Some(o.error)
    ensures !o.Fail? ==> m.State() == old(m.State()) && m.failure == old(m.failure)
  {
    var existing := GetLogin(s.catalog, p.name);
    if existing.Fail? {
      m.HandleError(Some(existing.error));
      return Fail(existing.error);
    }
    if existing.value.None? {
      o := CreateLoginSession(m, s, p);
    } else {
      o := UpdateLoginSession(m, s, p, rule, existing.value.value);
    }
  }

  /** `ensure_absent`. */
  method EnsureAbsent(m: MssqlModule, s: Session, p: LoginParams) returns (o: Outcome<LoginResult>)
    modifies m, s
    ensures o == EnsureAbsentPlan(old(s.catalog), p, m.checkMode).outcome
    ensures s.issued == old(s.issued) + EnsureAbsentPlan(old(s.catalog), p, m.checkMode).statements
    ensures s.catalog == ApplyAll(old(s.catalog), EnsureAbsentPlan(old(s.catalog), p, m.checkMode).statements)
    ensures o.Fail? ==> m.State() == Closed(old(m.State())) && m.failure == Some(o.error)
    ensures !o.Fail? ==> m.State() == old(m.State()) && m.failure == old(m.failure)
  {
    var existing := GetLogin(s.catalog, p.name);
    if existing.Fail? {
      m.HandleError(Some(existing.error));
      return Fail(existing.error);
    }
    if existing.value.None? {
      return Done(LoginResult(false, None, None, None));
    }
    var result := LoginResult(true, None, None, Some(existing.value.value));
    if !m.checkMode {
      s.Execute(DropLogin(p.name));
      assert ApplyAll(Apply(old(s.catalog), DropLogin(p.name)), []) == s.catalog;
    }
    return Done(result);
  }

  /** `run_module`: the session is closed when the module exits normally or
      through `handle_error`, and left open when an exception escapes. */
  method RunModule(m: MssqlModule, s: Session, p: LoginParams, rule: PasswordRule, conn: Handle, cursor: Handle)
    returns (o: Outcome<LoginResult>)
    requires TypeChoice(p)
    modifies m, s
    ensures o == RunPlan(old(s.catalog), p, rule, m.checkMode).outcome
    ensures s.issued == old(s.issued) + RunPlan(old(s.catalog), p, rule, m.checkMode).statements
    ensures s.catalog == ApplyAll(old(s.catalog), RunPlan(old(s.catalog), p, rule, m.checkMode).statements)
    ensures o.Fail? ==> m.failure == Some(o.error)
    ensures !o.Fail? ==> m.failure == old(m.failure)
    ensures !o.Crash? ==> m.conn == None && m.cursor == None
    ensures o.Crash? ==> m.conn == Some(conn) && m.cursor == Some(cursor)
  {
    m.InitializeClient(conn, cursor);
    var error := ValidateParams(p);
    if error.Some? {
      m.HandleError(error);
      return Fail(error.value);
    }
    if p.state.Present? {
      o := EnsurePresent(m, s, p, rule);
    } else {
      o := EnsureAbsent(m, s, p);
    }
    if o.Done? {
      m.CloseClientSession();
    }
  }
}
