/**
 * The audit-log listing: which log entries a signed-in actor may read,
 * scoped by role, newest first.
 */
module LogViews {
  import opened Wrappers
  import opened UserModels
  import opened EventModels
  import Seqs

  /**
   * The log entries `actor` may list. Administrators see every entry; event
   * creators see the entries of the events they created; regular users see
   * the entries of the events they have joined. Anonymous actors are refused.
   * The entries come newest first.
   */
  function VisibleLogs(actor: Actor, logs: seq<LogEntry>, events: map<EventId, Event>, ps: seq<Participant>)
    : (r: Option<seq<LogEntry>>)
    ensures r.None? <==> !actor.Authenticated?
    ensures r.Some? ==> forall l :: l in r.value ==> l in logs
    ensures r.Some? && IsAdmin(actor.user) ==> forall l :: l in r.value <==> l in logs
    ensures r.Some? && IsEventCreator(actor.user) ==>
      forall l :: l in r.value <==>
        l in logs && l.event.Some? && l.event.value in events && events[l.event.value].creator == actor.user.id
    ensures r.Some? && IsRegularUser(actor.user) ==>
      forall l :: l in r.value <==> l in logs && l.event.Some? && HasPair(ps, l.event.value, actor.user.id)
    ensures r.Some? && TimestampsIncreasing(logs) ==> TimestampsDecreasing(r.value)
  {
    match actor
    case Anonymous => None
    case Authenticated(u) =>
      var keep :=
        if IsAdmin(u) then (l: LogEntry) => true
        else if IsEventCreator(u) then
          (l: LogEntry) => l.event.Some? && l.event.value in events && events[l.event.value].creator == u.id
        else (l: LogEntry) => l.event.Some? && HasPair(ps, l.event.value, u.id);
      var scoped := Seqs.Filter(logs, keep);
      FilterKeepsTimestampOrder(logs, keep);
      ReverseOfIncreasingIsDecreasing(scoped);
      Some(Seqs.Reverse(scoped))
  }
}
