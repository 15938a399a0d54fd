/** Concrete stores and requests: end-to-end cases of the orchestrator,
    and the roles, rules and admin account the seed script
    installs. */
module Scenarios {
  import opened Types
  import Rubac
  import Rbac
  import Dac
  import Unified
  import Auth

  const ItUser: User := User("role-employee", INTERNAL, Some("IT"), None, ACTIVE, Some(JUNIOR), 0, false)

  function StoreWith(resource: Resource): Unified.Store
  {
    Unified.Store(map["doc" := resource], map["alice" := ItUser], map["role-employee" := "EMPLOYEE"],
                  map[], map[], [])
  }

  function RequestFor(action: Action): Unified.AccessRequest
  {
    Unified.AccessRequest("alice", "role-employee", INTERNAL, Rubac.Str("IT"), Some("doc"), action, None,
                          Some("192.168.1.20"))
  }

  /** Same department, same level, someone else's resource, no grant: every
      gate before DAC passes and DAC denies the view. */
  lemma SameDepartmentWithoutGrantDeniedByDac()
    ensures Unified.CheckUnifiedAccess(StoreWith(Resource("bob", INTERNAL, Some("IT"))), RequestFor(View), true)
              == Decision(false, Some("No explicit permission granted for this resource"), Some(DAC))
  {
  }

  /** Department mismatch on an INTERNAL resource: ABAC denies before DAC
      is consulted. */
  lemma DepartmentMismatchDeniedByAbac()
    ensures Unified.CheckUnifiedAccess(StoreWith(Resource("bob", INTERNAL, Some("HR"))), RequestFor(View), true)
              == Decision(false, Some("Policy conditions not met"), Some(ABAC))
  {
  }

  /** Owning the resource does not help: the department gate comes before
      the ownership check. */
  lemma OwnerDeniedOnDepartmentMismatch()
    ensures Unified.CheckUnifiedAccess(StoreWith(Resource("alice", INTERNAL, Some("HR"))), RequestFor(View), true)
              == Decision(false, Some("Policy conditions not met"), Some(ABAC))
  {
  }

  /** Insufficient clearance: MAC denies, even for the owner of the resource. */
  lemma ClearanceDeniedByMac()
    ensures !Unified.CheckUnifiedAccess(StoreWith(Resource("alice", CONFIDENTIAL, Some("IT"))), RequestFor(View), true).allowed
    ensures Unified.CheckUnifiedAccess(StoreWith(Resource("alice", CONFIDENTIAL, Some("IT"))), RequestFor(View), true).model
              == Some(MAC)
  {
  }

  /** A PUBLIC resource in another department without a grant: the view is
      denied by DAC (no override for view), while an edit is allowed by the
      PUBLIC override. */
  lemma PublicResourceWithoutGrant()
    ensures Unified.CheckUnifiedAccess(StoreWith(Resource("bob", PUBLIC, Some("HR"))), RequestFor(View), true)
              == Decision(false, Some("No explicit permission granted for this resource"), Some(DAC))
    ensures Unified.CheckUnifiedAccess(StoreWith(Resource("bob", PUBLIC, Some("HR"))), RequestFor(Edit), true)
              == Unified.PublicOverride
  {
  }

  /** A grant with view but not edit allows the view and denies the delete. */
  lemma DeleteNeedsEditGrant()
    ensures var store := StoreWith(Resource("bob", INTERNAL, Some("IT")))
              .(grants := map[("doc", "alice") := Dac.Grant(Dac.Permissions(true, false, false), "bob")]);
            && Unified.CheckUnifiedAccess(store, RequestFor(View), true).allowed
            && !Unified.CheckUnifiedAccess(store, RequestFor(Delete), true).allowed
  {
  }

  /** The seed's five roles, under ids of this model's choosing. */
  function SeedRoles(): Rbac.Roles
  {
    map["r-admin" := "ADMIN", "r-hr" := "HR_MANAGER", "r-finance" := "FINANCE_MANAGER",
        "r-dept" := "DEPARTMENT_MANAGER", "r-emp" := "EMPLOYEE"]
  }

  /** The permission lists the seed grants to each role. */
  const AdminPermissions: seq<string> :=
    ["view_all", "edit_all", "delete_all", "manage_users", "manage_roles", "manage_rules", "view_confidential",
     "view_internal", "view_public", "approve_leave", "manage_backups", "view_logs", "export_logs"]
  const HrPermissions: seq<string> :=
    ["view_internal", "view_public", "manage_employees", "approve_leave", "view_hr_documents", "edit_hr_documents"]
  const FinancePermissions: seq<string> :=
    ["view_internal", "view_public", "view_confidential", "view_finance_documents", "edit_finance_documents",
     "approve_payroll"]
  const DeptPermissions: seq<string> :=
    ["view_public", "view_internal", "view_department_resources", "edit_department_resources",
     "approve_department_leave"]
  const EmployeePermissions: seq<string> :=
    ["view_public", "view_own_profile", "edit_own_profile", "create_leave_request"]

  /** One allowed row per listed permission, as the seed's upsert loops write them. */
  function SeedRows(roleId: string, permissions: seq<string>): (t: Rbac.RoleTable)
    ensures forall k :: k in t <==> k.0 == roleId && k.1 in permissions
    ensures forall k :: k in t ==> t[k]
  {
    map p | p in permissions :: (roleId, p) := true
  }

  /** The seed lists the permission for the role. */
  predicate Listed(roleId: string, permission: string)
  {
    || (roleId == "r-admin" && permission in AdminPermissions)
    || (roleId == "r-hr" && permission in HrPermissions)
    || (roleId == "r-finance" && permission in FinancePermissions)
    || (roleId == "r-dept" && permission in DeptPermissions)
    || (roleId == "r-emp" && permission in EmployeePermissions)
  }

  /** The rows the seed writes: exactly the listed pairs, all allowed. */
  function SeedTable(): (t: Rbac.RoleTable)
    ensures forall k :: k in t <==> Listed(k.0, k.1)
    ensures forall k :: k in t ==> t[k]
  {
    var admin, hr, finance := SeedRows("r-admin", AdminPermissions), SeedRows("r-hr", HrPermissions),
                              SeedRows("r-finance", FinancePermissions);
    var dept, employee := SeedRows("r-dept", DeptPermissions), SeedRows("r-emp", EmployeePermissions);
    admin + hr + finance + dept + employee
  }

  /** With the seed rows, HR managers approve leave and employees do not,
      only the finance manager approves payroll among the ordinary roles,
      and ADMIN passes a check for a permission it has no row for. */
  lemma SeedRoleChecks()
    ensures Rbac.CheckRbac(SeedRoles(), SeedTable(), "r-hr", "approve_leave").allowed
    ensures !Rbac.CheckRbac(SeedRoles(), SeedTable(), "r-emp", "approve_leave").allowed
    ensures Rbac.CheckRbac(SeedRoles(), SeedTable(), "r-finance", "approve_payroll").allowed
    ensures !Rbac.CheckRbac(SeedRoles(), SeedTable(), "r-hr", "approve_payroll").allowed
    ensures "approve_payroll" !in Rbac.GetRolePermissions(SeedTable(), "r-admin")
    ensures Rbac.CheckRbac(SeedRoles(), SeedTable(), "r-admin", "approve_payroll").allowed
  {
    SeedListing();
    SeedAdminRole();
    var roles, t := SeedRoles(), SeedTable();
    assert Rbac.Granted(t, "r-hr", "approve_leave") && Rbac.Granted(t, "r-finance", "approve_payroll");
    assert !Rbac.Granted(t, "r-emp", "approve_leave") && !Rbac.Granted(t, "r-hr", "approve_payroll");
    assert ("r-admin", "approve_payroll") !in t;
  }

  /** Which of the pairs used above the seed lists. */
  lemma SeedListing()
    ensures Listed("r-hr", "approve_leave") && Listed("r-finance", "approve_payroll")
    ensures !Listed("r-emp", "approve_leave") && !Listed("r-hr", "approve_payroll") && !Listed("r-admin", "approve_payroll")
  {
    assert "approve_leave" == HrPermissions[3];
    assert "approve_payroll" == FinancePermissions[5];
    assert "approve_leave" !in EmployeePermissions;
    assert "approve_payroll" !in HrPermissions;
    assert "approve_payroll" !in AdminPermissions;
  }

  /** Only the role named ADMIN is the super-role. */
  lemma SeedAdminRole()
    ensures Rbac.IsAdminRole(SeedRoles(), "r-admin")
    ensures !Rbac.IsAdminRole(SeedRoles(), "r-hr") && !Rbac.IsAdminRole(SeedRoles(), "r-emp")
    ensures !Rbac.IsAdminRole(SeedRoles(), "r-finance")
  {
  }

  /** The seed's WORKING_HOURS_ACCESS rule as stored: a DENY rule whose
      condition carries the 'workHours' tag. */
  const SeedWorkingHoursRule: Rubac.Rule :=
    Rubac.Rule("rule-hours", "WORKING_HOURS_ACCESS",
               [("time", Rubac.JString("workHours")), ("action", Rubac.JString("deny"))],
               DENY, true, Some("Deny access outside working hours (8 AM - 6 PM)"))

  /** As stored, the rule denies every request during working hours and
      none outside them: the reverse of its description. */
  lemma SeedWorkingHoursRuleDeniesDuringHours(ctx: Rubac.Context)
    ensures !Rubac.CheckRubac([SeedWorkingHoursRule], ctx, true).allowed
    ensures Rubac.CheckRubac([SeedWorkingHoursRule], ctx, false) == Rubac.NoMatch
  {
  }

  /** The rule as described: the 'afterHours' tag. */
  const CorrectedWorkingHoursRule: Rubac.Rule :=
    SeedWorkingHoursRule.(condition := [("time", Rubac.JString("afterHours")), ("action", Rubac.JString("deny"))])

  /** The corrected rule denies exactly outside working hours. */
  lemma CorrectedWorkingHoursRuleDeniesOutsideHours(ctx: Rubac.Context, workingHours: bool)
    ensures Rubac.CheckRubac([CorrectedWorkingHoursRule], ctx, workingHours).allowed <==> workingHours
  {
  }

  /** The seed's DEPARTMENT_RESOURCE_ACCESS rule as stored: 'match' under
      the userDepartment and resourceDepartment keys. */
  const SeedDepartmentRule: Rubac.Rule :=
    Rubac.Rule("rule-dept", "DEPARTMENT_RESOURCE_ACCESS",
               [("userDepartment", Rubac.JString("match")), ("resourceDepartment", Rubac.JString("match"))],
               ALLOW, true, Some("Users can only access resources from their department"))

  /** Those keys are plain equality tests, so the rule fires only when both
      departments are literally "match", and never for two equal real
      departments. */
  lemma SeedDepartmentRuleIsLiteral(ctx: Rubac.Context)
    ensures Rubac.Fires(SeedDepartmentRule, ctx, true) <==>
              Rubac.Lookup(ctx, "userDepartment") == Rubac.Str("match")
              && Rubac.Lookup(ctx, "resourceDepartment") == Rubac.Str("match")
    ensures !Rubac.Fires(SeedDepartmentRule, map["userDepartment" := Rubac.Str("IT"),
                                                   "resourceDepartment" := Rubac.Str("IT")], true)
  {
    var c := SeedDepartmentRule.condition;
    assert Rubac.Prop(c, "time").None? && Rubac.Prop(c, "department").None? && Rubac.Prop(c, "ipAddress").None?;
    assert !Rubac.Reserved(c[0].0) && !Rubac.Reserved(c[1].0);
  }

  /** The rule with 'match' under the department key, where the evaluator
      gives it meaning. */
  const CorrectedDepartmentRule: Rubac.Rule :=
    SeedDepartmentRule.(condition := [("department", Rubac.JString("match"))])

  /** The corrected rule fires exactly when the two departments are equal. */
  lemma CorrectedDepartmentRuleMatches(ctx: Rubac.Context, workingHours: bool)
    ensures Rubac.Fires(CorrectedDepartmentRule, ctx, workingHours) <==>
              Rubac.Lookup(ctx, "userDepartment") == Rubac.Lookup(ctx, "resourceDepartment")
  {
  }

  /** The seed's LEAVE_APPROVAL_10_DAYS rule: equality on resourceType, on a
      non-string `days` value and on requiredRole. */
  const SeedLeaveRule: Rubac.Rule :=
    var entries := [("resourceType", Rubac.JString("leave_request")), ("days", Rubac.JOther(true)),
                    ("requiredRole", Rubac.JString("HR_MANAGER"))];
    assert "resourceType"[2] != "requiredRole"[2];
    Rubac.Rule("rule-leave", "LEAVE_APPROVAL_10_DAYS", entries,
               ALLOW, true, Some("Leave requests >10 days require HR Manager approval"))

  /** The `days` object equals no context value, so the rule never fires,
      in whatever context. */
  lemma SeedLeaveRuleNeverFires(ctx: Rubac.Context, workingHours: bool)
    ensures !Rubac.Fires(SeedLeaveRule, ctx, workingHours)
  {
    var c := SeedLeaveRule.condition;
    assert Rubac.Prop(c, "time").None? && Rubac.Prop(c, "department").None? && Rubac.Prop(c, "ipAddress").None?;
    assert !Rubac.Reserved(c[1].0);
    assert !Rubac.StrictEquals(Rubac.Lookup(ctx, c[1].0), c[1].1);
  }

  /** The seed's administrator password would not pass the validator: it
      has no upper-case letter. */
  lemma SeedAdminPasswordIsWeak()
    ensures Auth.ValidatePassword("admin123") == Auth.PasswordCheck(false, Some(Auth.NO_UPPER))
  {
    assert forall i :: 0 <= i < |"admin123"| ==> !Auth.InClass("admin123"[i], Auth.Upper);
  }
}
