/** Role-based access control: the ADMIN role holds every permission;
    other roles hold exactly the permissions whose (role, permission) row
    is marked allowed. */
module Rbac {
  import opened Types
  import Text

  /** Role id to role name. */
  type Roles = map<string, string>

  /** The role-permission table: (role id, permission name) to the row's
      allowed flag; the pair is the table's unique key. */
  type RoleTable = map<(string, string), bool>

  predicate IsAdminRole(roles: Roles, roleId: string)
  {
    roleId in roles && roles[roleId] == ADMIN_ROLE
  }

  /** A row exists for the pair and is marked allowed. */
  predicate Granted(table: RoleTable, roleId: string, permission: string)
  {
    (roleId, permission) in table && table[(roleId, permission)]
  }

  /** checkRBAC: the super-role is allowed everything; otherwise the row
      decides, and a row marked not-allowed counts as no row. */
  function CheckRbac(roles: Roles, table: RoleTable, roleId: string, permission: string): (d: Decision)
    ensures d.model == Some(RBAC) && d.reason.Some?
    ensures IsAdminRole(roles, roleId) ==> d.allowed
    ensures !IsAdminRole(roles, roleId) ==> (d.allowed <==> Granted(table, roleId, permission))
    ensures !d.allowed ==> d.reason == Some("Role does not have " + permission + " permission")
  {
    if IsAdminRole(roles, roleId) then
      Decision(true, Some("Admin role has all permissions"), Some(RBAC))
    else if (roleId, permission) in table && table[(roleId, permission)] then
      Decision(true, Some("Role has " + permission + " permission"), Some(RBAC))
    else
      Decision(false, Some("Role does not have " + permission + " permission"), Some(RBAC))
  }

  /** checkRBACAny: the first permission that passes decides; none passing
      (in particular an empty list, even for the super-role) denies. */
  method CheckRbacAny(roles: Roles, table: RoleTable, roleId: string, permissions: seq<string>) returns (d: Decision)
    ensures d.model == Some(RBAC)
    ensures d.allowed <==> exists i :: 0 <= i < |permissions| && CheckRbac(roles, table, roleId, permissions[i]).allowed
    ensures d.allowed ==>
              exists i :: 0 <= i < |permissions| && d == CheckRbac(roles, table, roleId, permissions[i])
                && forall j :: 0 <= j < i ==> !CheckRbac(roles, table, roleId, permissions[j]).allowed
    ensures !d.allowed ==>
              d.reason == Some("Role does not have any of the required permissions: " + Text.Join(permissions, ", "))
  {
    var i := 0;
    while i < |permissions|
      invariant 0 <= i <= |permissions|
      invariant forall j :: 0 <= j < i ==> !CheckRbac(roles, table, roleId, permissions[j]).allowed
    {
      var decision := CheckRbac(roles, table, roleId, permissions[i]);
      if decision.allowed {
        return decision;
      }
      i := i + 1;
    }
    d := Decision(false, Some("Role does not have any of the required permissions: " + Text.Join(permissions, ", ")), Some(RBAC));
  }

  /** checkRBACAll: every permission must pass; the deny names the first
      missing permission in list order, and an empty list is allowed. */
  method CheckRbacAll(roles: Roles, table: RoleTable, roleId: string, permissions: seq<string>) returns (d: Decision)
    ensures d.model == Some(RBAC)
    ensures d.allowed <==> forall i :: 0 <= i < |permissions| ==> CheckRbac(roles, table, roleId, permissions[i]).allowed
    ensures !d.allowed ==>
              exists i :: 0 <= i < |permissions| && !CheckRbac(roles, table, roleId, permissions[i]).allowed
                && (forall j :: 0 <= j < i ==> CheckRbac(roles, table, roleId, permissions[j]).allowed)
                && d.reason == Some("Role missing required permission: " + permissions[i])
  {
    var i := 0;
    while i < |permissions|
      invariant 0 <= i <= |permissions|
      invariant forall j :: 0 <= j < i ==> CheckRbac(roles, table, roleId, permissions[j]).allowed
    {
      var decision := CheckRbac(roles, table, roleId, permissions[i]);
      if !decision.allowed {
        return Decision(false, Some("Role missing required permission: " + permissions[i]), Some(RBAC));
      }
      i := i + 1;
    }
    d := Decision(true, Some("Role has all required permissions"), Some(RBAC));
  }

  /** getRolePermissions: the names of the role's rows marked allowed. */
  function GetRolePermissions(table: RoleTable, roleId: string): (r: set<string>)
    ensures forall p :: p in r <==> Granted(table, roleId, p)
  {
    set k | k in table && k.0 == roleId && table[k] :: k.1
  }

  /** For an ordinary role the permission listing and the checker agree; the
      super-role passes every check whatever the listing says. */
  lemma ListingAgreesWithCheck(roles: Roles, table: RoleTable, roleId: string, permission: string)
    ensures !IsAdminRole(roles, roleId) ==>
              (permission in GetRolePermissions(table, roleId) <==> CheckRbac(roles, table, roleId, permission).allowed)
    ensures IsAdminRole(roles, roleId) ==> CheckRbac(roles, table, roleId, permission).allowed
  {
  }

  /** assignPermissionToRole: upsert the row for the pair. The source's
      `allowed` parameter defaults to true; a call that omits it is the call
      with `allowed` = true here. */
  function AssignPermissionToRole(table: RoleTable, roleId: string, permission: string, allowed: bool): (t: RoleTable)
    ensures (roleId, permission) in t && t[(roleId, permission)] == allowed
    ensures t.Keys == table.Keys + {(roleId, permission)}
    ensures forall k :: k in table && k != (roleId, permission) ==> t[k] == table[k]
  {
    table[(roleId, permission) := allowed]
  }

  /** After an assignment an ordinary role's check of that permission is the
      assigned flag, checks of other pairs are unchanged, and repeating the
      assignment changes nothing. */
  lemma AssignThenCheck(roles: Roles, table: RoleTable, roleId: string, permission: string, allowed: bool,
                        roleId': string, permission': string)
    ensures var t := AssignPermissionToRole(table, roleId, permission, allowed);
            && (!IsAdminRole(roles, roleId) ==> CheckRbac(roles, t, roleId, permission).allowed == allowed)
            && ((roleId', permission') != (roleId, permission) ==>
                  CheckRbac(roles, t, roleId', permission') == CheckRbac(roles, table, roleId', permission'))
            && AssignPermissionToRole(t, roleId, permission, allowed) == t
  {
  }

  /** removePermissionFromRole: delete the row for the pair; the store
      raises an error when there is no such row. */
  function RemovePermissionFromRole(table: RoleTable, roleId: string, permission: string): (r: Result<RoleTable, string>)
    ensures r.Failure? <==> (roleId, permission) !in table
    ensures r.Failure? ==> r.error == DELETE_NOT_FOUND
    ensures r.Success? ==> (roleId, permission) !in r.value && !Granted(r.value, roleId, permission)
    ensures r.Success? ==> forall k :: k in table && k != (roleId, permission) ==> k in r.value && r.value[k] == table[k]
  {
    DeleteRow(table, (roleId, permission))
  }

  /** After a removal an ordinary role is denied that permission, and a
      second removal of the same row fails. */
  lemma RemoveThenCheck(roles: Roles, table: RoleTable, roleId: string, permission: string)
    requires (roleId, permission) in table
    ensures var r := RemovePermissionFromRole(table, roleId, permission);
            && r.Success?
            && (!IsAdminRole(roles, roleId) ==> !CheckRbac(roles, r.value, roleId, permission).allowed)
            && RemovePermissionFromRole(r.value, roleId, permission).Failure?
  {
  }
}
