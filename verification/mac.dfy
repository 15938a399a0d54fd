/** Mandatory access control: a user may reach a resource only when the
    user's clearance is at least the resource's sensitivity. */
module Mac {
  import opened Types
  import Text

  /** The ordinal the SECURITY_LEVELS table assigns to a level. */
  function Ordinal(l: SecurityLevel): (n: int)
    ensures 1 <= n <= 3
    ensures n == 1 <==> l == PUBLIC
    ensures n == 3 <==> l == CONFIDENTIAL
  {
    match l
    case PUBLIC => 1
    case INTERNAL => 2
    case CONFIDENTIAL => 3
  }

  /** The clearance order stated without numbers: everything dominates
      PUBLIC, CONFIDENTIAL dominates everything, and every level dominates
      itself. */
  predicate Dominates(user: SecurityLevel, resource: SecurityLevel)
  {
    user == resource || resource == PUBLIC || user == CONFIDENTIAL
  }

  function DenyReason(user: SecurityLevel, resource: SecurityLevel): string
  {
    "User clearance level (" + LevelName(user)
      + ") is insufficient for resource security level (" + LevelName(resource) + ")"
  }

  /** checkMAC: allow iff the user's ordinal is at least the resource's.
      The verdict is always attributed to MAC; an allow carries no reason
      and a deny names both levels. */
  function CheckMac(user: SecurityLevel, resource: SecurityLevel): (d: Decision)
    ensures d.model == Some(MAC)
    ensures d.allowed <==> Dominates(user, resource)
    ensures d.allowed ==> d.reason == None
    ensures !d.allowed ==>
              && d.reason.Some? && d.reason.value != ""
              && Text.Occurs(LevelName(user), d.reason.value)
              && Text.Occurs(LevelName(resource), d.reason.value)
  {
    if Ordinal(user) >= Ordinal(resource) then
      Decision(true, None, Some(MAC))
    else
      Text.OccursBetween("User clearance level (", LevelName(user),
        ") is insufficient for resource security level (" + LevelName(resource) + ")");
      Text.OccursBetween("User clearance level (" + LevelName(user)
        + ") is insufficient for resource security level (", LevelName(resource), ")");
      assert DenyReason(user, resource)
        == "User clearance level (" + LevelName(user)
           + (") is insufficient for resource security level (" + LevelName(resource) + ")");
      Decision(false, Some(DenyReason(user, resource)), Some(MAC))
  }

  /** The MAC verdict is a total order on levels: reflexive, antisymmetric,
      transitive and total. */
  lemma ClearanceIsTotalOrder(a: SecurityLevel, b: SecurityLevel, c: SecurityLevel)
    ensures CheckMac(a, a).allowed
    ensures CheckMac(a, b).allowed && CheckMac(b, a).allowed ==> a == b
    ensures CheckMac(a, b).allowed && CheckMac(b, c).allowed ==> CheckMac(a, c).allowed
    ensures CheckMac(a, b).allowed || CheckMac(b, a).allowed
  {
  }

  /** Raising the clearance or lowering the sensitivity never turns an
      allow into a deny. */
  lemma MacMonotone(user: SecurityLevel, user': SecurityLevel, resource: SecurityLevel, resource': SecurityLevel)
    requires Ordinal(user) <= Ordinal(user')
    requires Ordinal(resource') <= Ordinal(resource)
    requires CheckMac(user, resource).allowed
    ensures CheckMac(user', resource').allowed
  {
  }

  /** getSecurityLevel: upper-case the input and return the level spelled
      that way, or nothing. */
  function GetSecurityLevel(level: string): (r: Option<SecurityLevel>)
    ensures forall l :: r == Some(l) <==> Text.ToUpper(level) == LevelName(l)
  {
    var upper := Text.ToUpper(level);
    if upper == "PUBLIC" then Some(PUBLIC)
    else if upper == "INTERNAL" then Some(INTERNAL)
    else if upper == "CONFIDENTIAL" then Some(CONFIDENTIAL)
    else None
  }

  /** Parsing a level's own name, or its lower-case spelling, gives the level back. */
  lemma GetSecurityLevelRoundTrip(l: SecurityLevel)
    ensures GetSecurityLevel(LevelName(l)) == Some(l)
    ensures GetSecurityLevel(Text.ToLower(LevelName(l))) == Some(l)
  {
    Text.UpperOfCapitals(LevelName(l));
  }

  /** canModifySecurityLevel: only the exact role name ADMIN may change levels. */
  function CanModifySecurityLevel(userRole: string): (r: bool)
    ensures r <==> userRole == ADMIN_ROLE
  {
    userRole == ADMIN_ROLE
  }
}
