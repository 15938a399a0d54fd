# Access-decision engine of USEDAMS, modelled in Dafny

USEDAMS decides whether a user may act on a protected resource by
combining five access-control models:

- mandatory (MAC): a clearance level compared with the resource's sensitivity;
- rule-based (RuBAC): an ordered list of stored ALLOW/DENY rules;
- role-based (RBAC): a role-permission table with an ADMIN super-role;
- attribute-based (ABAC): boolean policies over user and resource attributes;
- discretionary (DAC): resource ownership and per-user grants.

A unified orchestrator consults MAC, RuBAC, RBAC and ABAC in that order. The
first deny stops the evaluation. DAC decides last when a resource is
targeted. Every model returns an AccessDecision `{allowed, reason?, model?}`.
Beside the engine, the authentication utilities provide a password-strength
validator, a failed-login counter with lockout, and a second copy of the
clearance comparison.

This project models that core as pure Dafny functions over immutable values:

- the database tables are finite maps passed as parameters;
- the rule table is a sequence in stored order;
- the clock reading ("is it working hours?") is a boolean parameter;
- an update or delete of a missing row, which makes the store throw, returns `Failure`.

| file | module | models |
|---|---|---|
| types.dfy | `Types` | AccessDecision, the store enums, the user and resource rows, JavaScript truthiness of optional strings |
| text.dfy | `Text` | `toUpperCase`, `startsWith`, `join`, and `.length` counted in UTF-16 code units |
| mac.dfy | `Mac` | lib/access-control/mac.ts |
| rubac.dfy | `Rubac` | lib/access-control/rubac.ts |
| rbac.dfy | `Rbac` | lib/access-control/rbac.ts |
| abac.dfy | `Abac` | lib/access-control/abac.ts |
| dac.dfy | `Dac` | lib/access-control/dac.ts |
| unified.dfy | `Unified` | lib/access-control/unified.ts |
| auth.dfy | `Auth` | the pure parts of lib/auth.ts |
| scenarios.dfy | `Scenarios` | end-to-end cases and the fixtures of prisma/seed.ts |

Modelling choices where the code differs from what its comments suggest:

- **PUBLIC override.** The override is taken when DAC denies an action other
  than `view` (unified.ts line 112). The comment on the next line says "For
  view". The model follows the code, so a DAC deny of a `view` is returned
  unchanged, even on a PUBLIC resource (`Unified.ViewIsDacDecision`, `Scenarios.PublicResourceWithoutGrant`).
- **Revoke.** `revokeDACPermission` and `removePermissionFromRole` use the
  store's `delete`. That call fails when the row is missing, so revoking twice
  fails (`Dac.RevokeThenCheck`).
- **Rule order.** The rule query in `checkRuBAC` has no ordering clause. The
  rule list is therefore a given sequence, not creation order. A created rule
  is appended at the end.
- **Rule names.** The seed script upserts rules by `ruleName`, which the
  store accepts only for a unique column. Creating a rule under a name in use,
  or renaming a rule onto another rule's name, therefore fails with the
  store's unique-constraint error and changes nothing.
- **RuBAC context.** The orchestrator passes the user's department through
  unchanged, so it may be a string, `null` or `undefined`. The resource's
  department is `null` for a row without one and `undefined` for a missing row.
  Department `'match'` therefore holds when both are `undefined`.
- **ABAC context.** Here an empty department collapses to "absent".
  `sameDepartmentPolicy` then holds when both departments are absent.
- **JavaScript truthiness.** An empty `resourceId` or `permissionName` counts
  as not given. An empty `ipAddress` becomes `'unknown'` in the rule context.
- **Snapshot.** The orchestrator reads the resource row up to five times:
  three times itself, once through `getResourceAttributes` and once through
  `checkDAC`. The model reads one snapshot of it.

The level parser tests `upperLevel in SECURITY_LEVELS`, and `in` also sees
inherited object properties. Every inherited property name contains a
lower-case letter, so no upper-cased string can match one. The parser
therefore accepts exactly the three level names.

## Model

| member | source | states |
|---|---|---|
| `Mac.Ordinal` | lib/access-control/mac.ts:16-20 | The ordinal scale runs from 1 to 3, with PUBLIC the only 1 and CONFIDENTIAL the only 3 |
| `Mac.CheckMac` | lib/access-control/mac.ts:28-47 | Allowed iff the clearance dominates the sensitivity (order stated without numbers); model is always MAC; an allow has no reason; a deny's non-empty reason names both levels |
| `Mac.ClearanceIsTotalOrder` | lib/access-control/mac.ts:32-35 | The MAC verdict, read as a relation on levels, is reflexive, antisymmetric, transitive and total |
| `Mac.MacMonotone` | lib/access-control/mac.ts:32-35 | Raising the clearance or lowering the sensitivity never turns an allow into a deny |
| `Mac.GetSecurityLevel` | lib/access-control/mac.ts:52-58 | Returns level l exactly when the upper-cased input spells l's name; otherwise returns nothing |
| `Mac.GetSecurityLevelRoundTrip` | lib/access-control/mac.ts:52-58 | Parsing a level's name, or that name in lower case, gives the level back |
| `Mac.CanModifySecurityLevel` | lib/access-control/mac.ts:63-65 | True exactly for the role name ADMIN, the RBAC super-role name; the comparison is case-sensitive |
| `Rubac.CustomMatch` | lib/access-control/rubac.ts:53-62 | The custom-condition loop holds iff every key other than time/department/ipAddress strictly equals the context's value for that key |
| `Rubac.EvaluateCondition` | lib/access-control/rubac.ts:16-63 | A 'workHours' or 'afterHours' tag decides by the clock alone; with neither tag and no truthy department or ipAddress, the condition holds iff every other entry strictly equals the context's value |
| `Rubac.TimeTagDecides` | lib/access-control/rubac.ts:26-32 | A 'workHours' tag yields the clock reading and ignores the context; 'afterHours' yields its complement |
| `Rubac.DepartmentTagDecides` | lib/access-control/rubac.ts:34-40 | With no time tag, a truthy department decides alone: 'match' compares the two context departments, any other value must equal the user's department |
| `Rubac.IpTagDecides` | lib/access-control/rubac.ts:42-51 | With no time tag and no truthy department, a truthy ipAddress decides alone: 'companyNetwork' is the private-range test, any other value needs exact equality |
| `Rubac.CompanyNetworkExamples` | lib/access-control/rubac.ts:44-48 | 192.168.x, 10.x and 127.0.0.1 are company addresses; 172.16.0.1, 'unknown', undefined and null are not |
| `Rubac.FallbackIsConjunction` | lib/access-control/rubac.ts:53-62 | Without any tag the condition is the conjunction of its equality keys, so a condition with no such keys matches every context |
| `Rubac.Verdict` | lib/access-control/rubac.ts:88-100 | A firing rule allows iff its effect is ALLOW, with a non-empty reason and model RuBAC |
| `Rubac.CheckRubac` | lib/access-control/rubac.ts:70-111 | The first active rule whose condition holds decides; when none fires, including for an empty list, the result is allowed with reason 'No matching rules' |
| `Rubac.RubacDenyNamesRule` | lib/access-control/rubac.ts:88-94 | A RuBAC deny comes from an active DENY rule and its reason names that rule |
| `Rubac.LaterRulesCannotOverride` | lib/access-control/rubac.ts:83-103 | Once a rule in the list fires, rules appended after the list cannot change the decision |
| `Rubac.SilentPrefixIsTransparent` | lib/access-control/rubac.ts:83-103 | Rules that do not fire can be removed from the front of the list without changing the decision |
| `Rubac.FirstOfTwoDecides` | lib/access-control/rubac.ts:83-103 | Of two rules that both fire, whichever comes first decides, so swapping them swaps the verdict |
| `Rubac.ActiveRules` | lib/access-control/rubac.ts:78-80 | The rule query returns exactly the active rules, so a list of active rules comes back unchanged |
| `Rubac.ActiveRulesKeepsOrder` | lib/access-control/rubac.ts:78-80 | The query keeps stored order: it filters each part of a concatenation separately, a single rule comes back iff it is active, and an empty table gives an empty list |
| `Rubac.InactiveRulesAreIgnored` | lib/access-control/rubac.ts:78-80 | Scanning the stored list and skipping inactive rules decides the same as scanning only the active rules |
| `Rubac.CreateRule` | lib/access-control/rubac.ts:116-131 | Fails with the store's unique-constraint error iff a stored rule already has the name; otherwise the created rule is stored active, with the given name, condition, effect and description, after the existing rules, which are unchanged |
| `Rubac.CreateKeepsNamesUnique` | lib/access-control/rubac.ts:116-131 | Creating a rule keeps the rule names unique |
| `Rubac.CreatedRuleFiresLast` | lib/access-control/rubac.ts:116-131 | A created rule changes a decision only when no existing rule fires; then it decides if its condition holds, and otherwise the default applies |
| `Rubac.UpdateRule` | lib/access-control/rubac.ts:136-153 | Fails iff no rule has the id (not-found error) or the update renames the rule onto a name another rule carries (unique-constraint error); otherwise rewrites that rule's given fields in place and leaves every other rule unchanged |
| `Rubac.UpdateKeepsNamesUnique` | lib/access-control/rubac.ts:136-153 | With unique ids, updating a rule keeps the rule names unique |
| `Rubac.DeactivatedRuleNeverFires` | lib/access-control/rubac.ts:136-153 | After an update that sets isActive to false, the rule never fires |
| `Rbac.CheckRbac` | lib/access-control/rbac.ts:17-58 | The ADMIN role is allowed everything; other roles are allowed iff a row exists and is marked allowed; model is always RBAC; a deny names the permission |
| `Rbac.CheckRbacAny` | lib/access-control/rbac.ts:63-79 | Allowed iff some listed permission passes, returning the first passing decision; otherwise denied with the list in the reason, so an empty list is denied even for ADMIN |
| `Rbac.CheckRbacAll` | lib/access-control/rbac.ts:84-104 | Allowed iff every listed permission passes, so an empty list is allowed; a deny names the first failing permission in list order |
| `Rbac.GetRolePermissions` | lib/access-control/rbac.ts:109-121 | Exactly the permission names whose row for the role is marked allowed |
| `Rbac.ListingAgreesWithCheck` | lib/access-control/rbac.ts:109-121 | For a non-ADMIN role, the listing contains a permission iff checkRBAC allows it; ADMIN passes every check whatever the listing holds |
| `Rbac.AssignPermissionToRole` | lib/access-control/rbac.ts:126-145 | Upsert: the pair maps to the given flag (true when the caller omits it), the key set gains at most that pair, all other rows are unchanged |
| `Rbac.AssignThenCheck` | lib/access-control/rbac.ts:126-145 | After an assignment, a non-ADMIN check of that pair returns the flag, other pairs check as before, and repeating the assignment changes nothing |
| `Rbac.RemovePermissionFromRole` | lib/access-control/rbac.ts:150-162 | Fails iff the row is missing; otherwise the pair is gone and no longer granted, and every other row keeps its flag |
| `Rbac.RemoveThenCheck` | lib/access-control/rbac.ts:150-162 | After a removal, a non-ADMIN role is denied that permission, and a second removal fails |
| `Abac.CheckAbac` | lib/access-control/abac.ts:34-53 | Allowed equals the policy's answer on the context; model ABAC; reason 'Policy conditions met' or 'Policy conditions not met' |
| `Abac.FinancePayrollPolicy` | lib/access-control/abac.ts:59-66 | The payroll policy needs working hours and a manager; given both, it holds iff the department is Finance |
| `Abac.HrDepartmentPolicy` | lib/access-control/abac.ts:68-74 | The HR policy holds iff the departments are the same and the resource's is HR |
| `Abac.ActiveEmployeePolicy` | lib/access-control/abac.ts:76-79 | The active-employee policy holds iff a status is given and it is ACTIVE |
| `Abac.DepartmentManagerPolicy` | lib/access-control/abac.ts:81-87 | The manager policy holds iff the user is a manager and the departments are the same |
| `Abac.SameDepartmentPolicy` | lib/access-control/abac.ts:89-92 | The departments match iff both are absent or both are present with the same string |
| `Abac.PolicyCatalogue` | lib/access-control/abac.ts:60-92 | The department-manager and HR policies each imply the same-department policy; the payroll policy is false outside working hours; two absent departments count as the same; the active-employee policy needs a status |
| `Abac.CheckAbacAny` | lib/access-control/abac.ts:153-169 | Allowed iff some policy holds, so an empty list is denied; fixed reasons on both outcomes |
| `Abac.CheckAbacAll` | lib/access-control/abac.ts:174-194 | Allowed iff every policy holds, so an empty list is allowed; fixed reasons on both outcomes |
| `Abac.GetUserAttributes` | lib/access-control/abac.ts:97-123 | Fails with 'User not found' iff the user is unknown (no defaults); otherwise returns the stored department, location, status and job level |
| `Abac.GetResourceAttributes` | lib/access-control/abac.ts:128-148 | Fails with 'Resource not found' iff the resource is unknown; otherwise returns the stored department and level |
| `Dac.CheckDac` | lib/access-control/dac.ts:24-101 | A missing resource denies with 'Resource not found'; the owner is allowed; a non-owner with no grant is denied; otherwise the action's bit decides; model always DAC; reasons are non-empty and, once a grant row exists, name the action |
| `Dac.DeleteRequiresEdit` | lib/access-control/dac.ts:71-86 | Delete is allowed exactly when edit is, for every user and resource |
| `Dac.IsResourceOwner` | lib/access-control/dac.ts:156-166 | Ownership holds iff checkDAC with no grants at all allows every action; without it, checkDAC with no grants denies every action |
| `Dac.OwnerAlwaysAllowed` | lib/access-control/dac.ts:43-68 | The owner is allowed every action whatever the grants; a non-owner without a grant row is denied every action |
| `Dac.GrantPermission` | lib/access-control/dac.ts:106-134 | Upsert: the pair maps to exactly the given bits and grantor; the key set gains at most that pair; other grants are unchanged |
| `Dac.GrantIsUpsert` | lib/access-control/dac.ts:112-133 | A second grant for a pair replaces the first, and granting the same thing twice is granting it once |
| `Dac.GrantThenCheck` | lib/access-control/dac.ts:112-133 | After a grant, a non-owner's check of each action is that action's granted bit |
| `Types.DeleteRow` | lib/access-control/dac.ts:143-150 | The store's delete by unique key: fails iff the key is absent, otherwise removes exactly that key and leaves the other rows as they were |
| `Dac.RevokePermission` | lib/access-control/dac.ts:139-151 | Fails iff no grant exists for the pair; otherwise deletes exactly that grant |
| `Dac.RevokeThenCheck` | lib/access-control/dac.ts:139-151 | After a revoke a non-owner is denied every action on the resource; other users' checks are unchanged; a second revoke fails |
| `Unified.RubacContext` | lib/access-control/unified.ts:53-65 | The rule context holds only the user's department unchanged, the address or 'unknown', and the resource's department: undefined with no resource id or for a missing row, null for a row without a department, and the stored string otherwise |
| `Unified.AbacContextOf` | lib/access-control/unified.ts:86-95 | The attribute bundle's departments are the stored ones with empty strings collapsed to absent |
| `Unified.AbacStep` | lib/access-control/unified.ts:81-107 | The ABAC gate only ever stops with an ABAC deny |
| `Unified.CheckUnifiedAccess` | lib/access-control/unified.ts:33-138 | Every deny has a non-empty reason and a model; an allow with a resource comes from DAC or the PUBLIC override; an allow without one comes from RBAC and needs a permission name |
| `Unified.FirstSome` | lib/access-control/unified.ts:38-107 | The reference reading of a chain of stopping gates: the result is the first gate's answer in list order whose gates before it all passed, and nothing exactly when every gate passes |
| `Unified.Stop` | lib/access-control/unified.ts:38-107 | A gate that stops the request stops it with a deny: no gate before the terminal step can grant access |
| `Unified.OrchestratorIsGateSequence` | lib/access-control/unified.ts:33-138 | The orchestrator equals the gate list MAC, RuBAC, RBAC, ABAC (first deny wins) followed by the terminal DAC/RBAC/default step |
| `Unified.FirstStopOfGates` | lib/access-control/unified.ts:38-107 | The first stop among the four gates is MAC's if MAC stops, else the rule layer's, else RBAC's, else ABAC's |
| `Unified.MacGateDecides` | lib/access-control/unified.ts:38-51 | When the MAC gate stops, its deny is the orchestrator's result |
| `Unified.RubacGateDecides` | lib/access-control/unified.ts:53-70 | When MAC passes and the rule gate stops, the rule layer's deny is the result |
| `Unified.RbacGateDecides` | lib/access-control/unified.ts:72-78 | When MAC and the rules pass and the RBAC gate stops, the RBAC deny is the result |
| `Unified.AbacGateOrTerminal` | lib/access-control/unified.ts:80-137 | When the first three gates pass, the result is the ABAC deny if that gate stops, and the terminal DAC/RBAC/default step otherwise |
| `Unified.EarlierGatesPassed` | lib/access-control/unified.ts:38-107 | A gate's deny is the result when every earlier gate passed |
| `Unified.MacDenyIsFinal` | lib/access-control/unified.ts:38-51 | When the resource exists and MAC denies, the result is MAC's deny whatever the rules, roles, users, grants or clock |
| `Unified.RbacGateIsOptIn` | lib/access-control/unified.ts:72-78 | Without a permission name, replacing the role stores never changes the result |
| `Unified.AbacGateBehaviour` | lib/access-control/unified.ts:80-107 | The ABAC gate never stops a PUBLIC resource and is skipped for an unknown user or resource; otherwise it stops iff the departments, empty counted as absent, differ |
| `Unified.ViewIsDacDecision` | lib/access-control/unified.ts:109-125 | When every gate passes, a view's result is exactly checkDAC's decision: there is no override for view |
| `Unified.PublicOverrideForNonView` | lib/access-control/unified.ts:110-122 | When every gate passes, an edit, delete or share on a PUBLIC resource is allowed, and a DAC deny becomes 'Public resource' attributed to MAC |
| `Unified.NoResourceIsRbacOrDefault` | lib/access-control/unified.ts:127-137 | With no resource, the result is the rule layer's deny, else the RBAC verdict for the permission, else the default deny 'No access control checks passed' |
| `Text.Utf16LengthConcat` | lib/auth.ts:22 | The code-unit length of a concatenation is the sum of the parts' lengths |
| `Text.AstralCountsTwice` | lib/auth.ts:22 | Wherever it stands, a character above U+FFFF adds two code units to the length and any other character adds one |
| `Text.Utf16Length` | lib/auth.ts:22 | The password length counts UTF-16 code units: between the number of characters and twice that, and equal to it for characters below U+10000 |
| `Auth.Test` | lib/auth.ts:26-38 | A character-class test holds iff some character of the password is in the class |
| `Auth.ValidatePassword` | lib/auth.ts:21-43 | Valid iff at least 8 code units with an upper-case letter, a lower-case letter, a digit and a special character; a valid result has no error; otherwise the error is for the first failing check in the order length, upper, lower, digit, special |
| `Auth.LengthCountsCodeUnits` | lib/auth.ts:22-24 | For example, four ASCII characters and one emoji already measure six, and four ASCII characters and three emoji pass the eight-unit minimum |
| `Auth.CheckAccountLockout` | lib/auth.ts:46-53 | An unknown user is not locked; a known user's result is the stored flag |
| `Auth.IncrementFailedAttempts` | lib/auth.ts:56-84 | Fails for an unknown user; otherwise the counter rises by one, the lock flag becomes 'count >= 5', nothing else changes, and a DENIED 'account_locked' audit row is written iff the flag is set |
| `Auth.ResetFailedAttempts` | lib/auth.ts:87-95 | Fails for an unknown user; otherwise the counter is 0 and the account is unlocked, and nothing else changes |
| `Auth.FailuresLockAtThreshold` | lib/auth.ts:62-71 | After n > 0 consecutive failures the counter has risen by n and the account is locked iff the counter reached 5, so it locks on the fifth failure and stays locked |
| `Auth.ResetThenFailures` | lib/auth.ts:56-95 | From a reset account, n > 0 failures lock it iff n >= 5 |
| `Auth.HasClearance` | lib/auth.ts:112-123 | The duplicate comparison agrees with checkMAC's verdict on every pair of levels |
| `Scenarios.SameDepartmentWithoutGrantDeniedByDac` | lib/access-control/unified.ts:109-125 | Same department and level, another owner, no grant: every gate before DAC passes and DAC denies the view |
| `Scenarios.DepartmentMismatchDeniedByAbac` | lib/access-control/unified.ts:81-107 | Department mismatch on an INTERNAL resource: ABAC denies before DAC |
| `Scenarios.OwnerDeniedOnDepartmentMismatch` | lib/access-control/unified.ts:81-125 | The owner of an INTERNAL resource in another department is denied by ABAC, because that gate comes before the ownership check |
| `Scenarios.ClearanceDeniedByMac` | lib/access-control/unified.ts:38-51 | INTERNAL clearance on a CONFIDENTIAL resource: MAC denies, even for the owner |
| `Scenarios.PublicResourceWithoutGrant` | lib/access-control/unified.ts:110-125 | PUBLIC resource in another department with no grant: the view is denied by DAC, the edit is allowed by the override |
| `Scenarios.DeleteNeedsEditGrant` | lib/access-control/dac.ts:82-85 | A view-only grant allows the view and denies the delete through the whole orchestrator |
| `Scenarios.SeedRoleChecks` | prisma/seed.ts:64-201 | With the rows the seed writes, HR managers approve leave and employees do not; the finance manager approves payroll and the HR manager does not; ADMIN passes the payroll check although it has no row for it |
| `Scenarios.SeedWorkingHoursRuleDeniesDuringHours` | prisma/seed.ts:235-248 | The seeded WORKING_HOURS_ACCESS rule denies every request during working hours and none outside them |
| `Scenarios.CorrectedWorkingHoursRuleDeniesOutsideHours` | prisma/seed.ts:235-248 | With the 'afterHours' tag the rule allows exactly during working hours |
| `Scenarios.SeedLeaveRuleNeverFires` | prisma/seed.ts:251-265 | The seeded LEAVE_APPROVAL_10_DAYS rule never fires, because its `days` object equals no context value |
| `Scenarios.SeedDepartmentRuleIsLiteral` | prisma/seed.ts:268-281 | The seeded DEPARTMENT_RESOURCE_ACCESS rule fires only when both departments are literally "match", never for two equal real departments |
| `Scenarios.CorrectedDepartmentRuleMatches` | prisma/seed.ts:268-281 | With 'match' under the department key the rule fires exactly when the two departments are equal |
| `Scenarios.SeedAdminPasswordIsWeak` | prisma/seed.ts:207 | The seeded administrator password fails the validator for lack of an upper-case letter |

## Left out

- Database access, `async`/`await` and concurrency: every table is a map or sequence passed in. The non-atomic read-then-write in `incrementFailedAttempts` is not modelled.
- The clock: `isWorkingHours` is a boolean parameter. The ABAC context's access timestamp is dropped, because no policy reads it.
- `hashPassword`, `verifyPassword` and `getUserWithRole` in lib/auth.ts: foreign hashing and a plain query.
- `getActiveRules` in rubac.ts: it lists active rules ordered by a creation timestamp. The model's rules carry no timestamp.
- The `console.warn` in the ABAC gate's catch block: logging only.
- The audit-log sink: `Auth.IncrementFailedAttempts` returns the audit row it would write instead of writing it.
- Mac.GetSecurityLevel: upper-cases ASCII letters only. JavaScript's full Unicode upper-casing also maps a few other characters onto these letters (dotless ı to I, the ﬁ ligature to FI), so the source accepts some extra spellings that the model rejects.
- Rubac.EvaluateCondition: JSON numbers, booleans, arrays and objects in a condition are modelled by their truthiness alone. Under `===` none of them equals a context value. A `null` condition, which throws, and conditions that are not objects are not modelled.
- Rubac.CheckRubac: context values are limited to `undefined`, `null` and strings, the only ones the orchestrator passes. A direct caller passing other values is not modelled.
- Rubac.CreateRule: the store generates the new rule's id. The model takes a fresh id as input and appends the rule at the end. Row order after an update is assumed to stay stable.
- Rbac.AssignPermissionToRole: always succeeds. The store's upsert throws when the role id has no Role row (a foreign key); the model takes the role-permission table alone and does not see the role rows.
- Dac.GrantPermission: always succeeds. The store's upsert throws when the resource id or the user id has no row (foreign keys); the model takes the grant table alone. The share route grants only after it has found the resource through its owner check and the target user by email.
- The store's error for a missing row in update and delete is one constant message. The store's real error object is not modelled.
- Auth.IncrementFailedAttempts: the counter is unbounded. The database column is a 32-bit integer, and its overflow after 2^31 failures is not modelled.
- EmploymentStatus: the schema that lists every status is not part of this model. Only ACTIVE is distinguished; any other status is carried by name.
- The ABAC context's resource level is typed as a string in the source. The model uses the level enum, which is what the orchestrator stores there.
- HTTP route handlers, the session and token layer, backups, logging, log export and the UI: they are callers of the engine or unrelated plumbing.

## Findings

| source | as written | input that shows it | evidently intended | confidence | as-written member | corrected member |
|---|---|---|---|---|---|---|
| prisma/seed.ts:235-248 | WORKING_HOURS_ACCESS is a DENY rule with the tag `time: 'workHours'` | any request while the clock reads working hours is denied; any request outside them passes | deny outside working hours ('afterHours'), as the rule's description says | high; not executed | `Scenarios.SeedWorkingHoursRuleDeniesDuringHours` | `Scenarios.CorrectedWorkingHoursRuleDeniesOutsideHours` |
| prisma/seed.ts:268-281 | DEPARTMENT_RESOURCE_ACCESS puts `'match'` under `userDepartment` and `resourceDepartment`, where it is a literal equality test | user and resource both in department "IT": the rule does not fire | the department-match tag (`department: 'match'`), which compares the two departments | medium; not executed | `Scenarios.SeedDepartmentRuleIsLiteral` | `Scenarios.CorrectedDepartmentRuleMatches` |
