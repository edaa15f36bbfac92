/** Roles, permissions and the single rule by which a grant satisfies a requirement. */
module Rbac {
  import opened Collections
  import opened Text

  const WILDCARD := "*"

  datatype Principal = Principal(userId: string, roles: seq<string>, orgId: Option<string>)

  const ANONYMOUS := Principal("anonymous", [], None)

  /** A role-to-permissions mapping. */
  type Policy = map<string, set<string>>

  /** Everything the known roles grant; unknown roles grant nothing. */
  function AllGrants(roles: seq<string>, policy: Policy): set<string> {
    set role, p | role in roles && role in policy && p in policy[role] :: p
  }

  /** The wildcard absorbs every other grant. */
  function Expansion(roles: seq<string>, policy: Policy): set<string> {
    var all := AllGrants(roles, policy);
    if WILDCARD in all then {WILDCARD} else all
  }

  method ExpandRoles(roles: seq<string>, policy: Policy) returns (permissions: set<string>)
    ensures permissions == Expansion(roles, policy)
  {
    permissions := {};
    for i := 0 to |roles|
      invariant permissions == AllGrants(roles[..i], policy)
      invariant WILDCARD !in permissions
    {
      var role := roles[i];
      assert roles[..i + 1] == roles[..i] + [role];
      if role in policy {
        if WILDCARD in policy[role] {
          assert WILDCARD in AllGrants(roles, policy);
          return {WILDCARD};
        }
        permissions := permissions + policy[role];
      }
    }
    assert roles[..|roles|] == roles;
  }

  function EffectivePermissions(principal: Option<Principal>, policy: Policy): set<string> {
    if principal.None? then {} else Expansion(principal.value.roles, policy)
  }

  /** A `prefix:*` grant covers what starts with `prefix:`. */
  predicate Covers(grant: string, required: string) {
    EndsWith(grant, ":*") && grant[..|grant| - 1] <= required
  }

  /** What a single grant authorizes. */
  predicate Authorizes(grant: string, required: string) {
    grant == WILDCARD || grant == required || Covers(grant, required)
  }

  predicate PermissionSatisfied(granted: set<string>, required: string) {
    WILDCARD in granted || required in granted || exists g | g in granted :: Covers(g, required)
  }

  /** Default deny; no requirement at all is always allowed. */
  predicate Can(principal: Option<Principal>, permission: Option<string>, policy: Policy) {
    permission.None? || PermissionSatisfied(EffectivePermissions(principal, policy), permission.value)
  }

  /** What the collapse to the wildcard may not change: the expansion authorizes exactly what some
      single grant of some known role authorizes. */
  lemma ExpansionAuthorizesByOneGrant(roles: seq<string>, policy: Policy, required: string)
    ensures PermissionSatisfied(Expansion(roles, policy), required) <==>
            exists g | g in AllGrants(roles, policy) :: Authorizes(g, required)
  {
    var all := AllGrants(roles, policy);
    if WILDCARD in all {
      assert WILDCARD in Expansion(roles, policy);
    } else if PermissionSatisfied(all, required) && required !in all {
      var g :| g in all && Covers(g, required);
    }
  }

  /** A trailing wildcard stands for its prefix, colon included, and for nothing shorter. */
  lemma CoversIff(grant: string, required: string)
    ensures Covers(grant, required) <==> exists p :: grant == p + ":*" && p + ":" <= required
  {
    if Covers(grant, required) {
      var p := grant[..|grant| - 2];
      assert grant == p + ":*" && grant[..|grant| - 1] == p + ":";
    }
    if p :| grant == p + ":*" && p + ":" <= required {
      assert grant[..|grant| - 1] == p + ":" && grant[|grant| - 2..] == ":*";
    }
  }

  /** A single grant of one of the principal's roles authorizes the requirement. */
  ghost predicate GrantedByOne(principal: Principal, policy: Policy, required: string) {
    exists role, g | role in principal.roles && role in policy && g in policy[role] :: Authorizes(g, required)
  }

  lemma CanByOneGrant(principal: Principal, policy: Policy, required: string)
    ensures Can(Some(principal), Some(required), policy) <==> GrantedByOne(principal, policy, required)
  {
    ExpansionAuthorizesByOneGrant(principal.roles, policy, required);
  }

  /** The durable store: one row per (role, permission), editable at run time. */
  class PolicyTable {
    var rows: set<(string, string)>

    constructor ()
      ensures rows == {}
    {
      rows := {};
    }

    /** Everybody keeps what they could do, and those with the role gain exactly what the new permission
        authorizes. */
    method Grant(role: string, permission: string)
      modifies this
      ensures rows == old(rows) + {(role, permission)}
      ensures forall principal, required ::
                Can(principal, Some(required), Grouped(rows)) <==>
                || Can(principal, Some(required), Grouped(old(rows)))
                || (principal.Some? && role in principal.value.roles && Authorizes(permission, required))
    {
      rows := rows + {(role, permission)};
      forall principal, required
        ensures Can(principal, Some(required), Grouped(rows)) <==>
                || Can(principal, Some(required), Grouped(old(rows)))
                || (principal.Some? && role in principal.value.roles && Authorizes(permission, required))
      {
        GrantAddsExactly(old(rows), role, permission, principal, required);
      }
    }

    /** Nobody gains anything, and a permission is kept exactly by those whom another row authorizes. */
    method Revoke(role: string, permission: string)
      modifies this
      ensures rows == old(rows) - {(role, permission)}
      ensures forall principal, required ::
                Can(principal, Some(required), Grouped(rows)) <==>
                && Can(principal, Some(required), Grouped(old(rows)))
                && (exists row | row in old(rows) && row != (role, permission) ::
                      row.0 in principal.value.roles && Authorizes(row.1, required))
    {
      rows := rows - {(role, permission)};
      forall principal, required
        ensures Can(principal, Some(required), Grouped(rows)) <==>
                && Can(principal, Some(required), Grouped(old(rows)))
                && (exists row | row in old(rows) && row != (role, permission) ::
                      row.0 in principal.value.roles && Authorizes(row.1, required))
      {
        RevokeKeepsExactly(old(rows), role, permission, principal, required);
      }
    }

    /** One SELECT over the principal's roles, proved to agree with the in-memory expansion of
        the same rows. */
    method Effective(principal: Option<Principal>) returns (permissions: set<string>)
      ensures permissions == EffectivePermissions(principal, Grouped(rows))
    {
      if principal.None? || principal.value.roles == [] {
        return {};
      }
      SelectionIsGrouping(rows, principal.value.roles);
      permissions := Selected(rows, principal.value.roles);
      if WILDCARD in permissions {
        permissions := {WILDCARD};
      }
    }
  }

  /** SELECT permission ... WHERE role = ANY(roles). */
  function Selected(rows: set<(string, string)>, roles: seq<string>): set<string> {
    set row | row in rows && row.0 in roles :: row.1
  }

  /** The rows grouped by role. */
  function Grouped(rows: set<(string, string)>): Policy {
    var roles := set row | row in rows :: row.0;
    map role | role in roles :: (set row | row in rows && row.0 == role :: row.1)
  }

  lemma SelectionIsGrouping(rows: set<(string, string)>, roles: seq<string>)
    ensures Selected(rows, roles) == AllGrants(roles, Grouped(rows))
  {
    var policy := Grouped(rows);
    forall p | p in Selected(rows, roles) ensures p in AllGrants(roles, policy) {
      var row :| row in rows && row.0 in roles && row.1 == p;
      assert row.0 in policy && p in policy[row.0];
    }
    forall p | p in AllGrants(roles, policy) ensures p in Selected(rows, roles) {
      var role :| role in roles && role in policy && p in policy[role];
      var row :| row in rows && row.0 == role && row.1 == p;
    }
  }

  /** Whoever is authorized is so by a single row. */
  lemma CanByOneRow(rows: set<(string, string)>, principal: Option<Principal>, required: string)
    ensures Can(principal, Some(required), Grouped(rows)) <==>
            principal.Some? && exists row | row in rows :: row.0 in principal.value.roles && Authorizes(row.1, required)
  {
    if principal.Some? {
      var roles := principal.value.roles;
      SelectionIsGrouping(rows, roles);
      ExpansionAuthorizesByOneGrant(roles, Grouped(rows), required);
      if Can(principal, Some(required), Grouped(rows)) {
        var g :| g in Selected(rows, roles) && Authorizes(g, required);
        var row :| row in rows && row.0 in roles && row.1 == g;
      }
      if row :| row in rows && row.0 in roles && Authorizes(row.1, required) {
        assert row.1 in Selected(rows, roles);
      }
    }
  }

  lemma GrantAddsExactly(rows: set<(string, string)>, role: string, permission: string,
                         principal: Option<Principal>, required: string)
    ensures Can(principal, Some(required), Grouped(rows + {(role, permission)})) <==>
            || Can(principal, Some(required), Grouped(rows))
            || (principal.Some? && role in principal.value.roles && Authorizes(permission, required))
  {
    var more := rows + {(role, permission)};
    CanByOneRow(rows, principal, required);
    CanByOneRow(more, principal, required);
    assert (role, permission) in more && forall row | row in rows :: row in more;
  }

  lemma RevokeKeepsExactly(rows: set<(string, string)>, role: string, permission: string,
                           principal: Option<Principal>, required: string)
    ensures Can(principal, Some(required), Grouped(rows - {(role, permission)})) <==>
            && Can(principal, Some(required), Grouped(rows))
            && (exists row | row in rows && row != (role, permission) ::
                  row.0 in principal.value.roles && Authorizes(row.1, required))
  {
    var fewer := rows - {(role, permission)};
    CanByOneRow(rows, principal, required);
    CanByOneRow(fewer, principal, required);
    forall row ensures row in fewer <==> row in rows && row != (role, permission) {}
  }

  /** Granting never takes authority away and revoking never adds any, although a granted wildcard
      replaces the whole expansion. */
  lemma AuthorityIsMonotone(fewer: set<(string, string)>, more: set<(string, string)>,
                            principal: Option<Principal>, permission: Option<string>)
    requires fewer <= more
    requires Can(principal, permission, Grouped(fewer))
    ensures Can(principal, permission, Grouped(more))
  {
    if permission.Some? && principal.Some? {
      var roles := principal.value.roles;
      SelectionIsGrouping(fewer, roles);
      SelectionIsGrouping(more, roles);
      ExpansionAuthorizesByOneGrant(roles, Grouped(fewer), permission.value);
      ExpansionAuthorizesByOneGrant(roles, Grouped(more), permission.value);
      assert Selected(fewer, roles) <= Selected(more, roles);
    }
  }
}
