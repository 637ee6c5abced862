/** The grant-state model shared by the three permission modules: the four
    states, the permission name codec, and the table that picks the one
    statement moving a permission from its previous to its desired state. */
module Grants {
  import opened Common

  /** Exactly one of these holds for a (principal, securable, permission)
      triple; `Revoke` is the absence of a catalog row. */
  datatype GrantState = Revoke | Grant | Deny | GrantWithGrantOption

  /** The module's own spelling of a state (the `state` option's choices). */
  function Name(g: GrantState): string {
    match g
    case Revoke => "revoke"
    case Grant => "grant"
    case Deny => "deny"
    case GrantWithGrantOption => "grant_with_grant_option"
  }

  /** The catalog's `state_desc` spelling of a state. */
  function StateDesc(g: GrantState): string {
    match g
    case Revoke => "REVOKE"
    case Grant => "GRANT"
    case Deny => "DENY"
    case GrantWithGrantOption => "GRANT_WITH_GRANT_OPTION"
  }

  /** The readers lower-case `state_desc`; that lands on the module's own name,
      and distinct states keep distinct names. */
  lemma StateDescLowered(g: GrantState)
    ensures Lower(StateDesc(g)) == Name(g)
    ensures forall h :: Name(h) == Name(g) ==> h == g
  {
    var d, n := StateDesc(g), Name(g);
    assert |Lower(d)| == |n|;
    forall i | 0 <= i < |n| ensures Lower(d)[i] == n[i] {
      assert Lower(d)[i] == LowerChar(d[i]);
    }
  }

  /** A permission identifier as the modules declare it: lower-case ASCII
      letters, digits and underscores. */
  predicate IsIdentifier(p: string) {
    forall i :: 0 <= i < |p| ==> IsLowerLetter(p[i]) || '0' <= p[i] <= '9' || p[i] == '_'
  }

  /** `convert_permission_to_query`: every `_` becomes a space and the text is
      upper-cased (`connect_sql` becomes `CONNECT SQL`). */
  function CanonicalName(permission: string): (r: string)
    ensures |r| == |permission|
    ensures forall i :: 0 <= i < |r| ==> r[i] != '_' && !IsLowerLetter(r[i])
    ensures forall i :: 0 <= i < |r| ==> (r[i] == ' ' <==> permission[i] == '_' || permission[i] == ' ')
  {
    seq(|permission|, i requires 0 <= i < |permission| =>
      if permission[i] == '_' then ' ' else UpperChar(permission[i]))
  }

  /** Reference inverse of the codec: back from the catalog spelling to the
      declared identifier. */
  function IdentifierOf(canonical: string): (r: string)
    ensures |r| == |canonical|
  {
    seq(|canonical|, i requires 0 <= i < |canonical| =>
      if canonical[i] == ' ' then '_' else LowerChar(canonical[i]))
  }

  /** Decoding the canonical name gives the identifier back. */
  lemma CanonicalRoundTrip(p: string)
    requires IsIdentifier(p)
    ensures IdentifierOf(CanonicalName(p)) == p
  {
    var c := CanonicalName(p);
    forall i | 0 <= i < |p| ensures IdentifierOf(c)[i] == p[i] {
      if p[i] != '_' {
        assert c[i] == UpperChar(p[i]);
      }
    }
  }

  /** So distinct identifiers never share a catalog spelling: the reader and the
      mutator of one permission never touch another's rows. */
  lemma CanonicalInjective(p: string, q: string)
    requires IsIdentifier(p) && IsIdentifier(q)
    ensures CanonicalName(p) == CanonicalName(q) <==> p == q
  {
    if CanonicalName(p) == CanonicalName(q) {
      CanonicalRoundTrip(p);
      CanonicalRoundTrip(q);
    }
  }

  lemma CanonicalExample()
    ensures CanonicalName("connect_sql") == "CONNECT SQL"
    ensures CanonicalName("view_server_state") == "VIEW SERVER STATE"
  {
  }

  /** The statement verbs the modules issue. */
  datatype Verb = GrantVerb | DenyVerb | RevokeVerb | RevokeGrantOptionFor

  /** Where a statement applies: server scope has no `USE [database]` prefix;
      database scope prefixes `USE [database]`; object scope also adds
      `ON OBJECT::schema.object`. */
  datatype Target =
    | OnServer
    | OnDatabase(database: string)
    | OnObject(database: string, schema: string, obj: string)

  /** One permission statement, in structure rather than text: the verb, the
      canonical permission name, the grantee, where it applies, and whether it
      carries `CASCADE` and `WITH GRANT OPTION`. */
  datatype PermissionStatement = PermissionStatement(
    verb: Verb, permission: string, principal: string, target: Target,
    cascade: bool, withGrantOption: bool)

  /** The state a statement leaves its triple in. */
  function ResultState(s: PermissionStatement): GrantState {
    match s.verb
    case RevokeVerb => Revoke
    case DenyVerb => Deny
    case RevokeGrantOptionFor => Grant
    case GrantVerb => if s.withGrantOption then GrantWithGrantOption else Grant
  }

  /** The transition table of `modify_permission`: no statement when previous and
      desired agree; otherwise the one statement that reaches the desired state,
      with `CASCADE` exactly when a grant option is being taken away. */
  function Transition(principal: string, target: Target, permission: string,
                      previous: GrantState, desired: GrantState): (r: Option<PermissionStatement>)
    ensures r.None? <==> previous == desired
    ensures r.Some? ==> ResultState(r.value) == desired
    ensures r.Some? ==> r.value.principal == principal && r.value.target == target
                        && r.value.permission == CanonicalName(permission)
    ensures r.Some? ==> (r.value.cascade <==> previous == GrantWithGrantOption)
    ensures r.Some? ==> (r.value.withGrantOption <==> desired == GrantWithGrantOption)
    ensures r.Some? ==> (r.value.verb == RevokeGrantOptionFor <==>
                          previous == GrantWithGrantOption && desired == Grant)
    ensures r.Some? && desired == Revoke ==> r.value.verb == RevokeVerb
    ensures r.Some? && desired == Deny ==> r.value.verb == DenyVerb
    ensures r.Some? && desired == GrantWithGrantOption ==> r.value.verb == GrantVerb
  {
    var name := CanonicalName(permission);
    if previous == desired then None
    else
      Some(match desired
        case Revoke =>
          PermissionStatement(RevokeVerb, name, principal, target, previous == GrantWithGrantOption, false)
        case Grant =>
          if previous == GrantWithGrantOption
          then PermissionStatement(RevokeGrantOptionFor, name, principal, target, true, false)
          else PermissionStatement(GrantVerb, name, principal, target, false, false)
        case Deny =>
          PermissionStatement(DenyVerb, name, principal, target, previous == GrantWithGrantOption, false)
        case GrantWithGrantOption =>
          PermissionStatement(GrantVerb, name, principal, target, false, true))
  }

  /** Desired `grant`: from `grant_with_grant_option` the grant option alone is
      revoked, with `CASCADE`; from any other differing state a plain `GRANT`. */
  lemma GrantDowngrade(principal: string, target: Target, permission: string, previous: GrantState)
    requires previous != Grant
    ensures var r := Transition(principal, target, permission, previous, Grant);
      r.Some? &&
      (previous == GrantWithGrantOption ==> r.value.verb == RevokeGrantOptionFor && r.value.cascade) &&
      (previous != GrantWithGrantOption ==> r.value.verb == GrantVerb && !r.value.cascade && !r.value.withGrantOption)
  {
  }
}
