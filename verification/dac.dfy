/** Discretionary access control: a resource's owner may do anything with
    it; anyone else needs an explicit grant row for the (resource, user)
    pair with the bit the action requires. */
module Dac {
  import opened Types
  import Text

  /** Resource id to resource row. */
  type Resources = map<string, Resource>

  /** DACPermission: the three grantable bits. */
  datatype Permissions = Permissions(canView: bool, canEdit: bool, canShare: bool)

  /** A stored grant row: the bits and who granted them. */
  datatype Grant = Grant(bits: Permissions, grantedBy: string)

  /** The grant table keyed by (resource id, user id), the table's unique
      key, so there is at most one grant per pair. */
  type Grants = map<(string, string), Grant>

  /** The bit an action needs: delete has no bit of its own and uses edit. */
  function ActionBit(g: Grant, a: Action): bool
  {
    match a
    case View => g.bits.canView
    case Edit => g.bits.canEdit
    case Share => g.bits.canShare
    case Delete => g.bits.canEdit
  }

  /** checkDAC: a missing resource denies, the owner is allowed, a
      non-owner without a grant row is denied, otherwise the action's bit
      decides. Every verdict is attributed to DAC and every deny has a
      reason. */
  function CheckDac(resources: Resources, grants: Grants, userId: string, resourceId: string, action: Action): (d: Decision)
    ensures d.model == Some(DAC) && d.reason.Some? && d.reason.value != ""
    ensures resourceId !in resources ==> d == Decision(false, Some("Resource not found"), Some(DAC))
    ensures resourceId in resources && resources[resourceId].ownerId == userId ==>
              d == Decision(true, Some("User is the resource owner"), Some(DAC))
    ensures resourceId in resources && resources[resourceId].ownerId != userId && (resourceId, userId) !in grants ==>
              d == Decision(false, Some("No explicit permission granted for this resource"), Some(DAC))
    ensures resourceId in resources && resources[resourceId].ownerId != userId && (resourceId, userId) in grants ==>
              && (d.allowed <==> ActionBit(grants[(resourceId, userId)], action))
              && Text.Occurs(ActionName(action), d.reason.value)
  {
    if resourceId !in resources then
      Decision(false, Some("Resource not found"), Some(DAC))
    else if resources[resourceId].ownerId == userId then
      Decision(true, Some("User is the resource owner"), Some(DAC))
    else if (resourceId, userId) !in grants then
      Decision(false, Some("No explicit permission granted for this resource"), Some(DAC))
    else
      var has := ActionBit(grants[(resourceId, userId)], action);
      if has then
        Text.OccursBetween("User has ", ActionName(action), " permission");
        Decision(true, Some("User has " + ActionName(action) + " permission"), Some(DAC))
      else
        Text.OccursBetween("User does not have ", ActionName(action), " permission for this resource");
        Decision(false, Some("User does not have " + ActionName(action) + " permission for this resource"), Some(DAC))
  }

  /** Delete is allowed exactly when edit is, for every user and resource. */
  lemma DeleteRequiresEdit(resources: Resources, grants: Grants, userId: string, resourceId: string)
    ensures CheckDac(resources, grants, userId, resourceId, Delete).allowed
              == CheckDac(resources, grants, userId, resourceId, Edit).allowed
  {
  }

  /** isResourceOwner: the resource exists and the user owns it. */
  function IsResourceOwner(resources: Resources, userId: string, resourceId: string): (r: bool)
    ensures r ==> forall a :: CheckDac(resources, map[], userId, resourceId, a).allowed
    ensures !r ==> forall a :: !CheckDac(resources, map[], userId, resourceId, a).allowed
  {
    resourceId in resources && resources[resourceId].ownerId == userId
  }

  /** The owner is allowed every action whatever the grant table holds, and
      without ownership a missing grant row denies every action. */
  lemma OwnerAlwaysAllowed(resources: Resources, grants: Grants, userId: string, resourceId: string, action: Action)
    ensures IsResourceOwner(resources, userId, resourceId) ==>
              CheckDac(resources, grants, userId, resourceId, action).allowed
    ensures !IsResourceOwner(resources, userId, resourceId) && (resourceId, userId) !in grants ==>
              !CheckDac(resources, grants, userId, resourceId, action).allowed
  {
  }

  /** grantDACPermission: upsert the grant for the pair. */
  function GrantPermission(grants: Grants, resourceId: string, userId: string, p: Permissions, grantedBy: string): (g: Grants)
    ensures (resourceId, userId) in g
    ensures g[(resourceId, userId)] == Grant(p, grantedBy)
    ensures g.Keys == grants.Keys + {(resourceId, userId)}
    ensures forall k :: k in grants && k != (resourceId, userId) ==> g[k] == grants[k]
  {
    grants[(resourceId, userId) := Grant(p, grantedBy)]
  }

  /** Granting replaces rather than accumulates: a second grant for the same
      pair leaves only the second grant's bits, and granting twice is granting once. */
  lemma GrantIsUpsert(grants: Grants, resourceId: string, userId: string, p: Permissions, q: Permissions, by1: string, by2: string)
    ensures var g1 := GrantPermission(grants, resourceId, userId, p, by1);
            && GrantPermission(g1, resourceId, userId, q, by2) == GrantPermission(grants, resourceId, userId, q, by2)
            && GrantPermission(g1, resourceId, userId, p, by1) == g1
  {
  }

  /** After a grant, a non-owner's check of every action is exactly that
      action's granted bit. */
  lemma GrantThenCheck(resources: Resources, grants: Grants, resourceId: string, userId: string, p: Permissions,
                       grantedBy: string, action: Action)
    requires resourceId in resources && resources[resourceId].ownerId != userId
    ensures var g := GrantPermission(grants, resourceId, userId, p, grantedBy);
            CheckDac(resources, g, userId, resourceId, action).allowed
              == ActionBit(Grant(p, grantedBy), action)
  {
  }

  /** revokeDACPermission: delete the grant for the pair; the store raises
      an error when there is no such grant, so revoking twice fails. */
  function RevokePermission(grants: Grants, resourceId: string, userId: string): (r: Result<Grants, string>)
    ensures r.Failure? <==> (resourceId, userId) !in grants
    ensures r.Failure? ==> r.error == DELETE_NOT_FOUND
    ensures r.Success? ==> r.value.Keys == grants.Keys - {(resourceId, userId)}
    ensures r.Success? ==> forall k :: k in r.value ==> r.value[k] == grants[k]
  {
    DeleteRow(grants, (resourceId, userId))
  }

  /** After a revoke a non-owner is denied every action on that resource,
      other users' checks are unchanged, and revoking again fails. */
  lemma RevokeThenCheck(resources: Resources, grants: Grants, resourceId: string, userId: string,
                        otherUser: string, action: Action)
    requires (resourceId, userId) in grants
    ensures var r := RevokePermission(grants, resourceId, userId);
            && r.Success?
            && (!IsResourceOwner(resources, userId, resourceId) ==>
                  !CheckDac(resources, r.value, userId, resourceId, action).allowed)
            && (otherUser != userId ==>
                  CheckDac(resources, r.value, otherUser, resourceId, action)
                    == CheckDac(resources, grants, otherUser, resourceId, action))
            && RevokePermission(r.value, resourceId, userId).Failure?
  {
  }
}
