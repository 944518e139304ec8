/**
 * The object and request permissions of the events app, as predicates of
 * the request method, the actor and the event addressed.
 */
module EventPermissions {
  import opened UserModels
  import EventModels

  datatype HttpMethod = Get | Head | Options | Post | Put | Patch | Delete

  /** The read-only request methods. */
  predicate IsSafe(m: HttpMethod) {
    m == Get || m == Head || m == Options
  }

  /**
   * Allows the creator of the event. An actor is compared with the creator
   * by user id; an anonymous actor is never the creator.
   */
  function IsEventCreator(actor: Actor, e: EventModels.Event): (allowed: bool)
    ensures allowed ==> actor.Authenticated?
    ensures actor.Authenticated? ==> (allowed <==> actor.user.id == e.creator)
  {
    actor.Authenticated? && actor.user.id == e.creator
  }

  /** Allows every read; allows a write only to the creator of the event. */
  function IsEventCreatorOrReadOnly(m: HttpMethod, actor: Actor, e: EventModels.Event): (allowed: bool)
    ensures IsSafe(m) ==> allowed
    ensures !IsSafe(m) ==> (allowed <==> actor.Authenticated? && actor.user.id == e.creator)
  {
    if IsSafe(m) then true else IsEventCreator(actor, e)
  }

  /** On writes the two object permissions agree. */
  lemma WritesNeedTheCreator(m: HttpMethod, actor: Actor, e: EventModels.Event)
    requires !IsSafe(m)
    ensures IsEventCreatorOrReadOnly(m, actor, e) == IsEventCreator(actor, e)
  {}

  /** There is no administrator override: an administrator who did not create the event may not write it. */
  lemma NoAdminOverride(m: HttpMethod, actor: Actor, e: EventModels.Event)
    requires !IsSafe(m) && actor.Authenticated? && IsAdmin(actor.user) && actor.user.id != e.creator
    ensures !IsEventCreatorOrReadOnly(m, actor, e) && !IsEventCreator(actor, e)
  {}

  /**
   * The create permission as written: the actor's role is compared with
   * the words "admin" and "creator", which are not values of the role column,
   * so it refuses every actor.
   */
  function IsAdminOrCreatorAsWritten(actor: Actor): (allowed: bool)
    ensures !allowed
  {
    LowerCaseWordsAreNotRoles();
    actor.Authenticated? && (RoleValue(actor.user.role) == "admin" || RoleValue(actor.user.role) == "creator")
  }

  /** The create permission as intended: signed-in administrators and event creators. */
  function IsAdminOrCreator(actor: Actor): (allowed: bool)
    ensures allowed <==> actor.Authenticated? && actor.user.role != RegularUser
  {
    actor.Authenticated? && (IsAdmin(actor.user) || UserModels.IsEventCreator(actor.user))
  }
}
