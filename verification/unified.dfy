/** The unified orchestrator: MAC, then RuBAC, then RBAC, then ABAC, each
    able to stop the evaluation with its deny; DAC decides last when a
    resource is targeted, and RBAC alone applies when none is. */
module Unified {
  import opened Types
  import Mac
  import Rubac
  import Rbac
  import Abac
  import Dac

  /** One snapshot of every store the engine reads. */
  datatype Store = Store(
    resources: Dac.Resources,
    users: map<string, User>,
    roles: Rbac.Roles,
    rolePermissions: Rbac.RoleTable,
    grants: Dac.Grants,
    rules: seq<Rubac.Rule>)

  /** UnifiedAccessContext. `userDepartment` may be a string, null or
      undefined; the other optional strings are absent or a string. */
  datatype AccessRequest = AccessRequest(
    userId: string,
    userRoleId: string,
    userClearanceLevel: SecurityLevel,
    userDepartment: Rubac.CtxValue,
    resourceId: Option<string>,
    action: Action,
    permissionName: Option<string>,
    ipAddress: Option<string>)

  const PublicOverride: Decision := Decision(true, Some("Public resource"), Some(MAC))
  const NoChecksPassed: Decision := Decision(false, Some("No access control checks passed"), Some(RBAC))

  /** The targeted resource row, when a resource id is given and stored. */
  function TargetResource(store: Store, req: AccessRequest): (r: Option<Resource>)
    ensures r.Some? <==> Present(req.resourceId) && req.resourceId.value in store.resources
    ensures r.Some? ==> r.value == store.resources[req.resourceId.value]
  {
    if Present(req.resourceId) && req.resourceId.value in store.resources then
      Some(store.resources[req.resourceId.value])
    else None
  }

  /** The context handed to the rule layer: the user's department as given,
      the address or 'unknown', and, when a resource id is given, that
      resource's department (null for a row without one, undefined for a
      missing row). */
  function RubacContext(store: Store, req: AccessRequest): (ctx: Rubac.Context)
    ensures Rubac.Lookup(ctx, "userDepartment") == req.userDepartment
    ensures Rubac.Lookup(ctx, "ipAddress") == Rubac.Str(if Present(req.ipAddress) then req.ipAddress.value else "unknown")
    ensures !Present(req.resourceId) ==> Rubac.Lookup(ctx, "resourceDepartment") == Rubac.Undefined
    ensures Present(req.resourceId) ==>
              Rubac.Lookup(ctx, "resourceDepartment")
                == if req.resourceId.value !in store.resources then Rubac.Undefined
                   else match store.resources[req.resourceId.value].department
                        case None => Rubac.Null
                        case Some(s) => Rubac.Str(s)
    ensures ctx.Keys <= {"userDepartment", "ipAddress", "resourceDepartment"}
  {
    var base := map["userDepartment" := req.userDepartment,
                     "ipAddress" := Rubac.Str(if Present(req.ipAddress) then req.ipAddress.value else "unknown")];
    if !Present(req.resourceId) then base
    else
      var dept := match TargetResource(store, req)
        case None => Rubac.Undefined
        case Some(res) => (match res.department case None => Rubac.Null case Some(s) => Rubac.Str(s));
      base["resourceDepartment" := dept]
  }

  /** The attribute bundle the ABAC gate builds: empty strings collapse to
      absent, as `x || undefined` does. */
  function AbacContextOf(ua: Abac.UserAttributes, ra: Abac.ResourceAttributes, req: AccessRequest): (ctx: Abac.AbacContext)
    ensures ctx.userDepartment == OrAbsent(ua.department)
    ensures ctx.resourceDepartment == OrAbsent(ra.department)
  {
    Abac.AbacContext(OrAbsent(ua.department), OrAbsent(ua.location), Some(ua.employmentStatus), ua.jobLevel,
                     OrAbsent(ra.department), Some(ra.securityLevel), OrAbsent(req.ipAddress), None)
  }

  /** The ABAC gate's try block: fetch both attribute bundles, apply the
      same-department policy, and stop only on a deny for a non-PUBLIC
      resource. A failed fetch is caught and the gate is skipped. */
  function AbacStep(store: Store, req: AccessRequest): (r: Option<Decision>)
    requires Present(req.resourceId)
    ensures r.Some? ==> r.value.model == Some(ABAC) && !r.value.allowed
  {
    match Abac.GetUserAttributes(store.users, req.userId)
    case Failure(_) => None
    case Success(ua) =>
      match Abac.GetResourceAttributes(store.resources, req.resourceId.value)
      case Failure(_) => None
      case Success(ra) =>
        var d := Abac.CheckAbac(AbacContextOf(ua, ra, req), Abac.SameDepartmentPolicy);
        if !d.allowed && ra.securityLevel != PUBLIC then Some(d) else None
  }

  /** checkUnifiedAccess, with the clock reading `workingHours` as input.
      Every deny it returns carries a non-empty reason and the model that
      produced it; every allow comes from DAC, the PUBLIC override, or (with
      no resource) RBAC. */
  function CheckUnifiedAccess(store: Store, req: AccessRequest, workingHours: bool): (d: Decision)
    ensures !d.allowed ==> d.reason.Some? && d.reason.value != "" && d.model.Some? && d.model != Some(UNIFIED)
    ensures d.allowed && Present(req.resourceId) ==> d.model == Some(DAC) || d == PublicOverride
    ensures d.allowed && !Present(req.resourceId) ==> d.model == Some(RBAC) && Present(req.permissionName)
  {
    var resource := TargetResource(store, req);
    var mac := if resource.Some? then Mac.CheckMac(req.userClearanceLevel, resource.value.securityLevel)
               else Decision(true, None, Some(MAC));
    if !mac.allowed then mac
    else
      var rubac := Rubac.CheckRubac(store.rules, RubacContext(store, req), workingHours);
      if !rubac.allowed then rubac
      else
        var rbac := if Present(req.permissionName)
                    then Rbac.CheckRbac(store.roles, store.rolePermissions, req.userRoleId, req.permissionName.value)
                    else Decision(true, None, Some(RBAC));
        if !rbac.allowed then rbac
        else
          var abac := if Present(req.resourceId) then AbacStep(store, req) else None;
          if abac.Some? then abac.value
          else if Present(req.resourceId) then
            var dac := Dac.CheckDac(store.resources, store.grants, req.userId, req.resourceId.value, req.action);
            if !dac.allowed && req.action != View && resource.Some? && resource.value.securityLevel == PUBLIC then
              PublicOverride
            else dac
          else if Present(req.permissionName) then
            Rbac.CheckRbac(store.roles, store.rolePermissions, req.userRoleId, req.permissionName.value)
          else NoChecksPassed
  }

  /** The four stopping gates. */
  datatype Gate = MacGate | RubacGate | RbacGate | AbacGate

  /** The deny a single gate stops with, if it stops. */
  function Stop(g: Gate, store: Store, req: AccessRequest, workingHours: bool): (r: Option<Decision>)
    ensures r.Some? ==> !r.value.allowed
  {
    match g
    case MacGate =>
      var res := TargetResource(store, req);
      if res.Some? && !Mac.CheckMac(req.userClearanceLevel, res.value.securityLevel).allowed
      then Some(Mac.CheckMac(req.userClearanceLevel, res.value.securityLevel)) else None
    case RubacGate =>
      var d := Rubac.CheckRubac(store.rules, RubacContext(store, req), workingHours);
      if !d.allowed then Some(d) else None
    case RbacGate =>
      if Present(req.permissionName) then
        var d := Rbac.CheckRbac(store.roles, store.rolePermissions, req.userRoleId, req.permissionName.value);
        if !d.allowed then Some(d) else None
      else None
    case AbacGate =>
      if Present(req.resourceId) then AbacStep(store, req) else None
  }

  /** The first present entry of a list of options. */
  function FirstSome<T>(xs: seq<Option<T>>): (r: Option<T>)
    ensures r.None? <==> forall i :: 0 <= i < |xs| ==> xs[i].None?
    ensures r.Some? ==> exists i :: 0 <= i < |xs| && xs[i] == r && forall j :: 0 <= j < i ==> xs[j].None?
    decreases |xs|
  {
    if |xs| == 0 then None
    else if xs[0].Some? then xs[0]
    else
      var r := FirstSome(xs[1..]);
      assert forall i :: 1 <= i < |xs| ==> xs[i] == xs[1..][i - 1];
      r
  }

  /** Each gate's answer, in the order the orchestrator consults them:
      MAC, the rule layer, RBAC, ABAC. */
  function GateStops(store: Store, req: AccessRequest, workingHours: bool): (stops: seq<Option<Decision>>)
    ensures |stops| == 4
  {
    [Stop(MacGate, store, req, workingHours), Stop(RubacGate, store, req, workingHours),
     Stop(RbacGate, store, req, workingHours), Stop(AbacGate, store, req, workingHours)]
  }

  /** What happens once every stopping gate has passed: DAC with the
      PUBLIC override for non-view actions, or, with no resource, RBAC or
      the default deny. */
  function Terminal(store: Store, req: AccessRequest): Decision
  {
    if Present(req.resourceId) then
      var dac := Dac.CheckDac(store.resources, store.grants, req.userId, req.resourceId.value, req.action);
      var res := TargetResource(store, req);
      if !dac.allowed && req.action != View && res.Some? && res.value.securityLevel == PUBLIC then PublicOverride
      else dac
    else if Present(req.permissionName) then
      Rbac.CheckRbac(store.roles, store.rolePermissions, req.userRoleId, req.permissionName.value)
    else NoChecksPassed
  }

  /** The orchestrator is the gate sequence MAC, RuBAC, RBAC, ABAC followed
      by the terminal step: its result is the first gate's deny, or the
      terminal decision when every gate passes. */
  lemma OrchestratorIsGateSequence(store: Store, req: AccessRequest, workingHours: bool)
    ensures CheckUnifiedAccess(store, req, workingHours)
              == match FirstSome(GateStops(store, req, workingHours))
                 case Some(d) => d
                 case None => Terminal(store, req)
  {
    FirstStopOfGates(store, req, workingHours);
    if Stop(MacGate, store, req, workingHours).Some? {
      MacGateDecides(store, req, workingHours);
    } else if Stop(RubacGate, store, req, workingHours).Some? {
      RubacGateDecides(store, req, workingHours);
    } else if Stop(RbacGate, store, req, workingHours).Some? {
      RbacGateDecides(store, req, workingHours);
    } else {
      AbacGateOrTerminal(store, req, workingHours);
    }
  }

  /** A MAC stop is the orchestrator's result. */
  lemma MacGateDecides(store: Store, req: AccessRequest, workingHours: bool)
    requires Stop(MacGate, store, req, workingHours).Some?
    ensures CheckUnifiedAccess(store, req, workingHours) == Stop(MacGate, store, req, workingHours).value
  {
  }

  /** With MAC passed, a rule-layer stop is the orchestrator's result. */
  lemma RubacGateDecides(store: Store, req: AccessRequest, workingHours: bool)
    requires Stop(MacGate, store, req, workingHours).None?
    requires Stop(RubacGate, store, req, workingHours).Some?
    ensures CheckUnifiedAccess(store, req, workingHours) == Stop(RubacGate, store, req, workingHours).value
  {
  }

  /** With MAC and the rules passed, an RBAC stop is the orchestrator's result. */
  lemma RbacGateDecides(store: Store, req: AccessRequest, workingHours: bool)
    requires Stop(MacGate, store, req, workingHours).None?
    requires Stop(RubacGate, store, req, workingHours).None?
    requires Stop(RbacGate, store, req, workingHours).Some?
    ensures CheckUnifiedAccess(store, req, workingHours) == Stop(RbacGate, store, req, workingHours).value
  {
  }

  /** With the first three gates passed, the result is the ABAC stop if
      there is one, and the terminal step otherwise. */
  lemma AbacGateOrTerminal(store: Store, req: AccessRequest, workingHours: bool)
    requires Stop(MacGate, store, req, workingHours).None?
    requires Stop(RubacGate, store, req, workingHours).None?
    requires Stop(RbacGate, store, req, workingHours).None?
    ensures Stop(AbacGate, store, req, workingHours).Some? ==>
              CheckUnifiedAccess(store, req, workingHours) == Stop(AbacGate, store, req, workingHours).value
    ensures Stop(AbacGate, store, req, workingHours).None? ==>
              CheckUnifiedAccess(store, req, workingHours) == Terminal(store, req)
  {
  }

  /** The first stop of the four gates, written out gate by gate. */
  lemma FirstStopOfGates(store: Store, req: AccessRequest, workingHours: bool)
    ensures FirstSome(GateStops(store, req, workingHours))
              == if Stop(MacGate, store, req, workingHours).Some? then Stop(MacGate, store, req, workingHours)
                 else if Stop(RubacGate, store, req, workingHours).Some? then Stop(RubacGate, store, req, workingHours)
                 else if Stop(RbacGate, store, req, workingHours).Some? then Stop(RbacGate, store, req, workingHours)
                 else Stop(AbacGate, store, req, workingHours)
  {
    var gs := GateStops(store, req, workingHours);
    assert gs[1..] == [gs[1], gs[2], gs[3]];
    assert gs[1..][1..] == [gs[2], gs[3]];
    assert gs[1..][1..][1..] == [gs[3]];
    assert gs[1..][1..][1..][1..] == [];
  }

  /** A gate's deny is returned only when every earlier gate has passed. */
  lemma EarlierGatesPassed(store: Store, req: AccessRequest, workingHours: bool, i: int)
    requires 0 <= i < 4
    requires GateStops(store, req, workingHours)[i].Some?
    requires forall j :: 0 <= j < i ==> GateStops(store, req, workingHours)[j].None?
    ensures CheckUnifiedAccess(store, req, workingHours) == GateStops(store, req, workingHours)[i].value
  {
    OrchestratorIsGateSequence(store, req, workingHours);
    var gs := GateStops(store, req, workingHours);
    var k :| 0 <= k < |gs| && gs[k] == FirstSome(gs) && forall j :: 0 <= j < k ==> gs[j].None?;
    assert k == i;
  }

  /** A MAC deny is final: it is the result whatever the rules, roles,
      attributes, grants or ownership say. */
  lemma MacDenyIsFinal(store: Store, req: AccessRequest, workingHours: bool, store': Store, workingHours': bool)
    requires Present(req.resourceId) && req.resourceId.value in store.resources
    requires !Mac.CheckMac(req.userClearanceLevel, store.resources[req.resourceId.value].securityLevel).allowed
    requires store'.resources == store.resources
    ensures CheckUnifiedAccess(store, req, workingHours)
              == Mac.CheckMac(req.userClearanceLevel, store.resources[req.resourceId.value].securityLevel)
    ensures CheckUnifiedAccess(store', req, workingHours') == CheckUnifiedAccess(store, req, workingHours)
  {
  }

  /** RBAC is opt-in: without a permission name the role stores are never
      consulted. */
  lemma RbacGateIsOptIn(store: Store, req: AccessRequest, workingHours: bool, roles: Rbac.Roles, table: Rbac.RoleTable)
    requires !Present(req.permissionName)
    ensures CheckUnifiedAccess(store.(roles := roles, rolePermissions := table), req, workingHours)
              == CheckUnifiedAccess(store, req, workingHours)
  {
    var store' := store.(roles := roles, rolePermissions := table);
    assert RubacContext(store', req) == RubacContext(store, req);
    if Present(req.resourceId) {
      assert AbacStep(store', req) == AbacStep(store, req);
    }
  }

  /** The ABAC gate never stops a request on a PUBLIC resource, is skipped
      when the user or the resource cannot be fetched, and otherwise stops
      exactly when the departments (empty counted as absent) differ. */
  lemma AbacGateBehaviour(store: Store, req: AccessRequest, workingHours: bool)
    requires Present(req.resourceId)
    ensures req.resourceId.value in store.resources && store.resources[req.resourceId.value].securityLevel == PUBLIC ==>
              Stop(AbacGate, store, req, workingHours).None?
    ensures req.userId !in store.users || req.resourceId.value !in store.resources ==>
              Stop(AbacGate, store, req, workingHours).None?
    ensures req.userId in store.users && req.resourceId.value in store.resources
            && store.resources[req.resourceId.value].securityLevel != PUBLIC ==>
              var userDept := OrAbsent(store.users[req.userId].department);
              var resourceDept := OrAbsent(store.resources[req.resourceId.value].department);
              Stop(AbacGate, store, req, workingHours).Some? <==> userDept != resourceDept
  {
  }

  /** Once every gate has passed, a view is decided by DAC alone: there is
      no PUBLIC override for view. */
  lemma ViewIsDacDecision(store: Store, req: AccessRequest, workingHours: bool)
    requires Present(req.resourceId) && req.action == View
    requires FirstSome(GateStops(store, req, workingHours)).None?
    ensures CheckUnifiedAccess(store, req, workingHours)
              == Dac.CheckDac(store.resources, store.grants, req.userId, req.resourceId.value, View)
  {
    OrchestratorIsGateSequence(store, req, workingHours);
  }

  /** Once every gate has passed, an edit, delete or share that DAC denies
      on a PUBLIC resource is allowed by the PUBLIC override. */
  lemma PublicOverrideForNonView(store: Store, req: AccessRequest, workingHours: bool)
    requires Present(req.resourceId) && req.action != View
    requires req.resourceId.value in store.resources && store.resources[req.resourceId.value].securityLevel == PUBLIC
    requires FirstSome(GateStops(store, req, workingHours)).None?
    ensures !Dac.CheckDac(store.resources, store.grants, req.userId, req.resourceId.value, req.action).allowed ==>
              CheckUnifiedAccess(store, req, workingHours) == PublicOverride
    ensures CheckUnifiedAccess(store, req, workingHours).allowed
  {
    OrchestratorIsGateSequence(store, req, workingHours);
  }

  /** With no resource, the result is the rule layer's deny, else the RBAC
      verdict for the permission name, else the default deny. */
  lemma NoResourceIsRbacOrDefault(store: Store, req: AccessRequest, workingHours: bool)
    requires !Present(req.resourceId)
    ensures var rubac := Rubac.CheckRubac(store.rules, RubacContext(store, req), workingHours);
            CheckUnifiedAccess(store, req, workingHours)
              == if !rubac.allowed then rubac
                 else if Present(req.permissionName) then
                   Rbac.CheckRbac(store.roles, store.rolePermissions, req.userRoleId, req.permissionName.value)
                 else NoChecksPassed
  {
  }
}
