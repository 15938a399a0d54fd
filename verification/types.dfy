/** Shared vocabulary of the access-control engine: the optional/failure
    wrappers, the store enums, the entities read from the store, and the
    AccessDecision every model returns. */
module Types {

  /** An optional value; `None` stands for JavaScript `undefined` or a
      database `null`, whichever the field can hold. */
  datatype Option<+T> = None | Some(value: T)

  /** The outcome of a store operation that can throw. */
  datatype Result<+T, +E> = Success(value: T) | Failure(error: E)

  /** Clearance of a user and sensitivity of a resource. */
  datatype SecurityLevel = PUBLIC | INTERNAL | CONFIDENTIAL

  /** The deciding model named in an AccessDecision. */
  datatype ModelTag = MAC | DAC | RBAC | RuBAC | ABAC | UNIFIED

  /** AccessDecision: `allowed`, an optional human-readable `reason`
      and an optional deciding `model`. */
  datatype Decision = Decision(allowed: bool, reason: Option<string>, model: Option<ModelTag>)

  /** The four resource actions the engine distinguishes. */
  datatype Action = View | Edit | Share | Delete

  datatype RuleAction = ALLOW | DENY

  datatype JobLevel = JUNIOR | SENIOR | MANAGER | EXECUTIVE

  /** The name of a status other than ACTIVE. */
  type OtherStatusName = name: string | name != "ACTIVE" witness "INACTIVE"

  /** Only ACTIVE is distinguished by the engine; every other status is
      carried by name, so each status has exactly one representation. */
  datatype EmploymentStatus = ACTIVE | OtherStatus(name: OtherStatusName)

  /** The stored name of a status; only ACTIVE is named "ACTIVE". */
  function StatusName(st: EmploymentStatus): (n: string)
    ensures n == "ACTIVE" <==> st == ACTIVE
  {
    match st
    case ACTIVE => "ACTIVE"
    case OtherStatus(name) => name
  }

  datatype LogStatus = SUCCESS | FAILED | DENIED

  /** A user row, restricted to the columns the core reads or writes. */
  datatype User = User(
    roleId: string,
    clearanceLevel: SecurityLevel,
    department: Option<string>,
    location: Option<string>,
    employmentStatus: EmploymentStatus,
    jobLevel: Option<JobLevel>,
    failedLoginAttempts: nat,
    isLocked: bool)

  /** A resource row, restricted to the columns the core reads. */
  datatype Resource = Resource(ownerId: string, securityLevel: SecurityLevel, department: Option<string>)

  /** The role name that the role checker and the security-level editor
      treat as the super-role. */
  const ADMIN_ROLE: string := "ADMIN"

  /** The errors the store raises when an update or delete names a row
      that does not exist. */
  const UPDATE_NOT_FOUND: string := "Record to update not found."
  const DELETE_NOT_FOUND: string := "Record to delete does not exist."

  /** The store's `delete` by unique key: the row goes and every other row
      stays; deleting a row that is not there raises the store's error. */
  function DeleteRow<K, V>(table: map<K, V>, key: K): (r: Result<map<K, V>, string>)
    ensures r.Failure? <==> key !in table
    ensures r.Failure? ==> r.error == DELETE_NOT_FOUND
    ensures r.Success? ==> r.value.Keys == table.Keys - {key}
    ensures r.Success? ==> forall k :: k in r.value ==> r.value[k] == table[k]
  {
    if key in table then Success(table - {key}) else Failure(DELETE_NOT_FOUND)
  }

  /** The enum spelling of a security level. */
  function LevelName(l: SecurityLevel): string
  {
    match l
    case PUBLIC => "PUBLIC"
    case INTERNAL => "INTERNAL"
    case CONFIDENTIAL => "CONFIDENTIAL"
  }

  /** The string spelling of an action. */
  function ActionName(a: Action): string
  {
    match a
    case View => "view"
    case Edit => "edit"
    case Share => "share"
    case Delete => "delete"
  }

  /** JavaScript truthiness of an optional string: absent and "" are falsy. */
  predicate Present(s: Option<string>)
  {
    s.Some? && s.value != ""
  }

  /** `s || undefined` for an optional string. */
  function OrAbsent(s: Option<string>): (r: Option<string>)
    ensures r.Some? <==> Present(s)
    ensures r.Some? ==> r == s
  {
    if Present(s) then s else None
  }
}
