/**
 * The request-level permissions of the users app, as predicates of the
 * request's actor (and, for IsSelfOrAdmin, the id of the user addressed).
 */
module UserPermissions {
  import opened UserModels

  /** Only signed-in administrators pass. */
  function IsAdminUser(actor: Actor): (allowed: bool)
    ensures allowed <==> actor.Authenticated? && actor.user.role == Admin
  {
    actor.Authenticated? && IsAdmin(actor.user)
  }

  /** Signed-in event creators and administrators pass; regular users do not. */
  function IsEventCreator(actor: Actor): (allowed: bool)
    ensures allowed <==> actor.Authenticated? && actor.user.role != RegularUser
  {
    actor.Authenticated? && (UserModels.IsEventCreator(actor.user) || IsAdmin(actor.user))
  }

  /** A signed-in user passes for their own record; an administrator for every record. */
  function IsSelfOrAdmin(actor: Actor, target: UserId): (allowed: bool)
    ensures allowed <==> actor.Authenticated? && (actor.user.id == target || actor.user.role == Admin)
  {
    actor.Authenticated? && (target == actor.user.id || IsAdmin(actor.user))
  }

  /** An anonymous actor passes none of the three. */
  lemma AnonymousDenied(target: UserId)
    ensures !IsAdminUser(Anonymous) && !IsEventCreator(Anonymous) && !IsSelfOrAdmin(Anonymous, target)
  {}

  /** Whoever passes IsAdminUser also passes IsEventCreator and IsSelfOrAdmin for any record. */
  lemma AdminPassesTheOthers(actor: Actor, target: UserId)
    requires IsAdminUser(actor)
    ensures IsEventCreator(actor) && IsSelfOrAdmin(actor, target)
  {}
}
