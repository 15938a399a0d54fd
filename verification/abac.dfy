/** Attribute-based access control: boolean policies over a bundle of user,
    resource and environment attributes. */
module Abac {
  import opened Types

  /** ABACContext. The access timestamp is not modelled: no policy reads it. */
  datatype AbacContext = AbacContext(
    userDepartment: Option<string>,
    userLocation: Option<string>,
    userEmploymentStatus: Option<EmploymentStatus>,
    userJobLevel: Option<JobLevel>,
    resourceDepartment: Option<string>,
    resourceSecurityLevel: Option<SecurityLevel>,
    ipAddress: Option<string>,
    device: Option<string>)

  /** checkABAC: the verdict is the policy's answer, attributed to ABAC with
      one of two fixed reasons. */
  function CheckAbac(ctx: AbacContext, policy: AbacContext -> bool): (d: Decision)
    ensures d.allowed == policy(ctx)
    ensures d.model == Some(ABAC)
    ensures d.reason == Some(if d.allowed then "Policy conditions met" else "Policy conditions not met")
  {
    if policy(ctx) then Decision(true, Some("Policy conditions met"), Some(ABAC))
    else Decision(false, Some("Policy conditions not met"), Some(ABAC))
  }

  /** financePayrollPolicy: a finance manager, and only during working
      hours; `workingHours` is the clock reading. */
  function FinancePayrollPolicy(ctx: AbacContext, workingHours: bool): (r: bool)
    ensures r ==> workingHours && ctx.userJobLevel == Some(MANAGER)
    ensures workingHours && ctx.userJobLevel == Some(MANAGER) ==> (r <==> ctx.userDepartment == Some("Finance"))
  {
    ctx.userDepartment == Some("Finance") && ctx.userJobLevel == Some(MANAGER) && workingHours
  }

  /** hrDepartmentPolicy: an HR user on an HR resource, that is, the same
      department when that department is HR. */
  function HrDepartmentPolicy(ctx: AbacContext): (r: bool)
    ensures r <==> SameDepartmentPolicy(ctx) && ctx.resourceDepartment == Some("HR")
  {
    ctx.userDepartment == Some("HR") && ctx.resourceDepartment == Some("HR")
  }

  /** activeEmployeePolicy: the status is given and is ACTIVE. */
  function ActiveEmployeePolicy(ctx: AbacContext): (r: bool)
    ensures r <==> ctx.userEmploymentStatus.Some? && ctx.userEmploymentStatus.value.ACTIVE?
  {
    ctx.userEmploymentStatus == Some(ACTIVE)
  }

  /** departmentManagerPolicy: a manager within the same department. */
  function DepartmentManagerPolicy(ctx: AbacContext): (r: bool)
    ensures r <==> SameDepartmentPolicy(ctx) && ctx.userJobLevel == Some(MANAGER)
  {
    ctx.userJobLevel == Some(MANAGER) && ctx.userDepartment == ctx.resourceDepartment
  }

  /** sameDepartmentPolicy: strict equality of the two optional departments,
      so two absent departments match, and a present one matches only the
      same string. */
  function SameDepartmentPolicy(ctx: AbacContext): (r: bool)
    ensures r <==> (ctx.userDepartment.None? && ctx.resourceDepartment.None?)
                   || (ctx.userDepartment.Some? && ctx.resourceDepartment.Some?
                       && ctx.userDepartment.value == ctx.resourceDepartment.value)
  {
    ctx.userDepartment == ctx.resourceDepartment
  }

  /** How the catalogue policies relate: the manager and HR policies each
      imply the same-department policy; the payroll policy needs working
      hours; absent departments count as the same department. */
  lemma PolicyCatalogue(ctx: AbacContext, workingHours: bool)
    ensures DepartmentManagerPolicy(ctx) ==> SameDepartmentPolicy(ctx)
    ensures HrDepartmentPolicy(ctx) ==> SameDepartmentPolicy(ctx)
    ensures !workingHours ==> !FinancePayrollPolicy(ctx, workingHours)
    ensures ctx.userDepartment.None? && ctx.resourceDepartment.None? ==> SameDepartmentPolicy(ctx)
    ensures ActiveEmployeePolicy(ctx) ==> ctx.userEmploymentStatus.Some?
  {
  }

  /** checkABACAny: the first policy that holds decides; none holding (an
      empty list included) denies. */
  method CheckAbacAny(ctx: AbacContext, policies: seq<AbacContext -> bool>) returns (d: Decision)
    ensures d.model == Some(ABAC)
    ensures d.allowed <==> exists i :: 0 <= i < |policies| && policies[i](ctx)
    ensures d.allowed ==> d.reason == Some("Policy conditions met")
    ensures !d.allowed ==> d.reason == Some("None of the policies allowed access")
  {
    var i := 0;
    while i < |policies|
      invariant 0 <= i <= |policies|
      invariant forall j :: 0 <= j < i ==> !policies[j](ctx)
    {
      var decision := CheckAbac(ctx, policies[i]);
      if decision.allowed {
        return decision;
      }
      i := i + 1;
    }
    d := Decision(false, Some("None of the policies allowed access"), Some(ABAC));
  }

  /** checkABACAll: every policy must hold; an empty list allows. */
  method CheckAbacAll(ctx: AbacContext, policies: seq<AbacContext -> bool>) returns (d: Decision)
    ensures d.model == Some(ABAC)
    ensures d.allowed <==> forall i :: 0 <= i < |policies| ==> policies[i](ctx)
    ensures d.reason == Some(if d.allowed then "All policies allowed access" else "One or more policies denied access")
  {
    var i := 0;
    while i < |policies|
      invariant 0 <= i <= |policies|
      invariant forall j :: 0 <= j < i ==> policies[j](ctx)
    {
      var decision := CheckAbac(ctx, policies[i]);
      if !decision.allowed {
        return Decision(false, Some("One or more policies denied access"), Some(ABAC));
      }
      i := i + 1;
    }
    d := Decision(true, Some("All policies allowed access"), Some(ABAC));
  }

  /** The user columns getUserAttributes selects. */
  datatype UserAttributes = UserAttributes(
    department: Option<string>,
    location: Option<string>,
    employmentStatus: EmploymentStatus,
    jobLevel: Option<JobLevel>)

  /** The resource columns getResourceAttributes selects. */
  datatype ResourceAttributes = ResourceAttributes(department: Option<string>, securityLevel: SecurityLevel)

  /** getUserAttributes: the stored attributes, or the 'User not found'
      error for an unknown id (never defaults). */
  function GetUserAttributes(users: map<string, User>, userId: string): (r: Result<UserAttributes, string>)
    ensures r.Success? <==> userId in users
    ensures r.Failure? ==> r.error == "User not found"
    ensures r.Success? ==>
              && r.value.department == users[userId].department
              && r.value.location == users[userId].location
              && r.value.employmentStatus == users[userId].employmentStatus
              && r.value.jobLevel == users[userId].jobLevel
  {
    if userId in users then
      var u := users[userId];
      Success(UserAttributes(u.department, u.location, u.employmentStatus, u.jobLevel))
    else Failure("User not found")
  }

  /** getResourceAttributes: the stored attributes, or the 'Resource not
      found' error for an unknown id. */
  function GetResourceAttributes(resources: map<string, Resource>, resourceId: string): (r: Result<ResourceAttributes, string>)
    ensures r.Success? <==> resourceId in resources
    ensures r.Failure? ==> r.error == "Resource not found"
    ensures r.Success? ==>
              r.value.department == resources[resourceId].department
              && r.value.securityLevel == resources[resourceId].securityLevel
  {
    if resourceId in resources then
      Success(ResourceAttributes(resources[resourceId].department, resources[resourceId].securityLevel))
    else Failure("Resource not found")
  }
}
