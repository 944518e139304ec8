/**
 * The event endpoints. Create, update, delete, join and leave run as atomic
 * operations on one store holding the event rows, the participant rows and
 * the audit log; every check runs before anything is written, so a refused
 * request changes nothing, and every successful one appends exactly one log
 * entry. Beside them, the event listing and the two event-scoped lists
 * (participants, log entries).
 */
module EventViews {
  import opened Wrappers
  import opened UserModels
  import opened EventModels
  import EventPermissions
  import EventFilters
  import Seqs

  /** Open events a non-administrator may hold when creating another one. */
  const MaxOpenEvents: nat := 5

  datatype Error =
    | NotAuthenticated
    | PermissionDenied
    | NotFound
    | QuotaReached
    | HasParticipants
    | NotOpen
    | Full
    | AlreadyJoined

  /** A refused permission answers "not authenticated" to anonymous actors and "forbidden" to others. */
  function DenialFor(actor: Actor): (err: Error)
    ensures err == NotAuthenticated <==> actor.Anonymous?
    ensures err == PermissionDenied <==> actor.Authenticated?
  {
    if actor.Authenticated? then PermissionDenied else NotAuthenticated
  }

  /** The fields of a new event; the status may be left out. */
  datatype EventFields = EventFields(
    name: string,
    description: string,
    capacity: nat,
    date: int,
    location: string,
    status: Option<Status>)

  /** The fields an update submits; `None` marks a field left out. */
  datatype EventChanges = EventChanges(
    name: Option<string>,
    description: Option<string>,
    capacity: Option<nat>,
    date: Option<int>,
    location: Option<string>,
    status: Option<Status>)

  predicate Submitted(c: EventChanges, f: Field) {
    match f
    case Name => c.name.Some?
    case Description => c.description.Some?
    case Capacity => c.capacity.Some?
    case Date => c.date.Some?
    case Location => c.location.Some?
    case StatusField => c.status.Some?
  }

  /** The names of the submitted fields, in the order the event declares them. */
  function UpdatedFields(c: EventChanges): (fs: seq<Field>)
    ensures forall f :: f in fs <==> Submitted(c, f)
  {
    (if c.name.Some? then [Name] else [])
    + ((if c.description.Some? then [Description] else [])
    + ((if c.capacity.Some? then [Capacity] else [])
    + ((if c.date.Some? then [Date] else [])
    + ((if c.location.Some? then [Location] else [])
    + (if c.status.Some? then [StatusField] else [])))))
  }

  /** No field is named twice. */
  lemma UpdatedFieldsDistinct(c: EventChanges)
    ensures Seqs.Distinct(UpdatedFields(c))
  {
    var t5 := if c.status.Some? then [StatusField] else [];
    var t4 := (if c.location.Some? then [Location] else []) + t5;
    Seqs.DistinctAppend(if c.location.Some? then [Location] else [], t5);
    var t3 := (if c.date.Some? then [Date] else []) + t4;
    Seqs.DistinctAppend(if c.date.Some? then [Date] else [], t4);
    var t2 := (if c.capacity.Some? then [Capacity] else []) + t3;
    Seqs.DistinctAppend(if c.capacity.Some? then [Capacity] else [], t3);
    var t1 := (if c.description.Some? then [Description] else []) + t2;
    Seqs.DistinctAppend(if c.description.Some? then [Description] else [], t2);
    var t0 := (if c.name.Some? then [Name] else []) + t1;
    Seqs.DistinctAppend(if c.name.Some? then [Name] else [], t1);
    assert UpdatedFields(c) == t0;
  }

  function Pick<T>(submitted: Option<T>, current: T): T {
    if submitted.Some? then submitted.value else current
  }

  /**
   * The event after an update: submitted fields take their new values, the
   * others keep theirs; the id and the creator are read-only.
   */
  function ApplyChanges(e: Event, c: EventChanges): (r: Event)
    ensures r.id == e.id && r.creator == e.creator
    ensures !Submitted(c, Name) ==> r.name == e.name
    ensures !Submitted(c, Description) ==> r.description == e.description
    ensures !Submitted(c, Capacity) ==> r.capacity == e.capacity
    ensures !Submitted(c, Date) ==> r.date == e.date
    ensures !Submitted(c, Location) ==> r.location == e.location
    ensures !Submitted(c, StatusField) ==> r.status == e.status
    ensures c.name.Some? ==> r.name == c.name.value
    ensures c.description.Some? ==> r.description == c.description.value
    ensures c.capacity.Some? ==> r.capacity == c.capacity.value
    ensures c.date.Some? ==> r.date == c.date.value
    ensures c.location.Some? ==> r.location == c.location.value
    ensures c.status.Some? ==> r.status == c.status.value
  {
    e.(name := Pick(c.name, e.name),
       description := Pick(c.description, e.description),
       capacity := Pick(c.capacity, e.capacity),
       date := Pick(c.date, e.date),
       location := Pick(c.location, e.location),
       status := Pick(c.status, e.status))
  }

  /** A log entry stamped with the current clock keeps the log ordered and behind the advanced clock. */
  lemma LogAppendKeepsOrder(logs: seq<LogEntry>, entry: LogEntry, clock: nat)
    requires TimestampsIncreasing(logs) && (forall l :: l in logs ==> l.timestamp < clock)
    requires entry.timestamp == clock
    ensures TimestampsIncreasing(logs + [entry])
    ensures forall l :: l in logs + [entry] ==> l.timestamp < clock + 1
  {
    var r := logs + [entry];
    forall i, j | 0 <= i < j < |r| ensures r[i].timestamp < r[j].timestamp {
      assert r[i] == logs[i];
      if j < |logs| {
        assert r[j] == logs[j];
      } else {
        assert logs[i] in logs;
      }
    }
  }

  /** Replacing a stored event by one with room for its participants keeps every event within capacity. */
  lemma ReplacedEventKeepsCapacity(events: map<EventId, Event>, ps: seq<Participant>, id: EventId, e: Event)
    requires id in events
    ensures (WithinCapacity(events, ps) && CurrentParticipants(ps, id) <= e.capacity) ==>
      WithinCapacity(events[id := e], ps)
  {
  }

  /** Submitting the same changes twice gives the same event as once. */
  lemma ApplyChangesIdempotent(e: Event, c: EventChanges)
    ensures ApplyChanges(ApplyChanges(e, c), c) == ApplyChanges(e, c)
  {}

  /** An update that submits no field leaves the event as it was and logs no field name. */
  lemma EmptyUpdateChangesNothing(e: Event)
    ensures ApplyChanges(e, EventChanges(None, None, None, None, None, None)) == e
    ensures UpdatedFields(EventChanges(None, None, None, None, None, None)) == []
  {}

  /** The status of a new event: the one given, otherwise the default. */
  function StatusOrDefault(s: Option<Status>): (r: Status)
    ensures s.None? ==> r == Open
    ensures s.Some? ==> r == s.value
  {
    if s.Some? then s.value else DefaultStatus
  }

  /** The open events `u` created. */
  function OpenEventsOf(events: map<EventId, Event>, u: UserId): (ids: set<EventId>)
    ensures forall id :: id in ids <==> id in events && events[id].creator == u && events[id].status == Open
  {
    set id | id in events && events[id].creator == u && events[id].status == Open
  }

  /** A new event adds at most one to its creator's open events. */
  lemma OpenEventsAfterInsert(events: map<EventId, Event>, e: Event, u: UserId)
    requires e.id !in events
    ensures |OpenEventsOf(events[e.id := e], u)| <= |OpenEventsOf(events, u)| + 1
  {
    var before, after := OpenEventsOf(events, u), OpenEventsOf(events[e.id := e], u);
    if e.creator == u && e.status == Open {
      assert after == before + {e.id};
    } else {
      assert after == before;
    }
  }

  /**
   * A new event, whose id no participant row names, has no participants,
   * and adding it keeps every event within its capacity.
   */
  lemma InsertedEventIsEmpty(events: map<EventId, Event>, ps: seq<Participant>, e: Event)
    requires e.id !in events
    requires forall p :: p in ps ==> p.event in events
    ensures CurrentParticipants(ps, e.id) == 0
    ensures WithinCapacity(events, ps) ==> WithinCapacity(events[e.id := e], ps)
  {
    assert forall p :: p in ps ==> p.event != e.id;
  }

  /**
   * The quota test as written: the role is compared with the word "admin",
   * which no role value equals, so it binds every user.
   */
  function QuotaAppliesAsWritten(u: User): (applies: bool)
    ensures applies
  {
    LowerCaseWordsAreNotRoles();
    RoleValue(u.role) != "admin"
  }

  /** As written, the quota binds administrators, whom the intended test exempts. */
  lemma QuotaAsWrittenBindsAdmins(u: User)
    requires IsAdmin(u)
    ensures QuotaAppliesAsWritten(u) && !QuotaApplies(u)
  {
  }

  /** The quota as intended: it binds every user except administrators. */
  function QuotaApplies(u: User): (applies: bool)
    ensures applies <==> u.role != Admin
  {
    !IsAdmin(u)
  }

  /**
   * The event listing: the `date` parameter (when present and readable)
   * keeps events dated at or after it; the `capacity` parameter keeps
   * events that are not full; then the `status` parameter (when present)
   * keeps events of that status.
   */
  function ListEvents(es: seq<Event>, ps: seq<Participant>, dateParam: Option<int>, capacityParam: bool,
                      statusParam: Option<Status>)
    : (r: seq<Event>)
    ensures forall e :: e in r <==>
      (&& e in es
       && (dateParam.Some? ==> dateParam.value <= e.date)
       && (capacityParam ==> !IsFull(e, ps))
       && (statusParam.Some? ==> e.status == statusParam.value))
    ensures Seqs.IsSubsequence(r, es)
  {
    var byDate := if dateParam.Some? then EventFilters.DateFrom(es, dateParam.value) else es;
    var byRoom := if capacityParam then EventFilters.HasCapacity(byDate, ps, true) else byDate;
    var r := if statusParam.Some? then EventFilters.WithStatus(byRoom, statusParam.value) else byRoom;
    Seqs.SubsequenceReflexive(es);
    Seqs.SubsequenceReflexive(byDate);
    Seqs.SubsequenceReflexive(byRoom);
    Seqs.SubsequenceTransitive(byRoom, byDate, es);
    Seqs.SubsequenceTransitive(r, byRoom, es);
    r
  }

  /**
   * The store behind the endpoints: event rows by id, participant rows and
   * the audit log in the order they were written, the next free ids, and a
   * clock that stamps each log entry.
   */
  class EventStore {
    var events: map<EventId, Event>
    var participants: seq<Participant>
    var logs: seq<LogEntry>
    var nextEventId: nat
    var nextParticipantId: nat
    var clock: nat

    /**
     * Ids match their rows and are below the next free id; (event, user)
     * pairs are unique; every participant row and every log entry that
     * names an event names a stored one; log entries are stamped in
     * increasing order before the clock.
     */
    ghost predicate Valid()
      reads this
    {
      && (forall id :: id in events ==> events[id].id == id && id < nextEventId)
      && UniquePairs(participants)
      && (forall p :: p in participants ==> p.event in events && p.id < nextParticipantId)
      && TimestampsIncreasing(logs)
      && (forall l :: l in logs ==> l.timestamp < clock && (l.event.Some? ==> l.event.value in events))
    }

    constructor ()
      ensures Valid()
      ensures events == map[] && participants == [] && logs == []
    {
      events, participants, logs := map[], [], [];
      nextEventId, nextParticipantId, clock := 0, 0, 0;
    }

    /**
     * Creating an event. Signed-in administrators and event creators may
     * create; a non-administrator already holding MaxOpenEvents open events
     * is refused. The new event belongs to the actor, is open unless told
     * otherwise, and its creation is logged.
     */
    method CreateEvent(actor: Actor, fields: EventFields) returns (r: Result<Event, Error>)
      requires Valid()
      modifies this
      ensures Valid()
      ensures !actor.Authenticated? ==> r == Failure(NotAuthenticated)
      ensures actor.Authenticated? && !EventPermissions.IsAdminOrCreator(actor) ==> r == Failure(PermissionDenied)
      ensures (EventPermissions.IsAdminOrCreator(actor) && QuotaApplies(actor.user)
               && |OpenEventsOf(old(events), actor.user.id)| >= MaxOpenEvents) ==> r == Failure(QuotaReached)
      ensures r.Success? <==> (EventPermissions.IsAdminOrCreator(actor)
               && !(QuotaApplies(actor.user) && |OpenEventsOf(old(events), actor.user.id)| >= MaxOpenEvents))
      ensures r.Failure? ==> unchanged(this)
      ensures r.Success? ==>
        && r.value.id !in old(events)
        && r.value == Event(r.value.id, fields.name, fields.description, fields.capacity, fields.date,
                            fields.location, StatusOrDefault(fields.status), actor.user.id)
        && events == old(events)[r.value.id := r.value]
        && participants == old(participants)
        && CurrentParticipants(participants, r.value.id) == 0
        && logs == old(logs) + [LogEntry(Some(r.value.id), actor.user.id, Create,
                                         EventDetails(r.value.id, r.value.name), old(clock))]
      ensures r.Success? && QuotaApplies(actor.user) ==> |OpenEventsOf(events, actor.user.id)| <= MaxOpenEvents
      ensures WithinCapacity(old(events), old(participants)) ==> WithinCapacity(events, participants)
    {
      if !actor.Authenticated? {
        return Failure(NotAuthenticated);
      }
      if !EventPermissions.IsAdminOrCreator(actor) {
        return Failure(PermissionDenied);
      }
      var u := actor.user;
      if QuotaApplies(u) && |OpenEventsOf(events, u.id)| >= MaxOpenEvents {
        return Failure(QuotaReached);
      }
      var e := Event(nextEventId, fields.name, fields.description, fields.capacity, fields.date,
                     fields.location, StatusOrDefault(fields.status), u.id);
      InsertedEventIsEmpty(events, participants, e);
      OpenEventsAfterInsert(events, e, u.id);
      events := events[e.id := e];
      nextEventId := nextEventId + 1;
      logs := logs + [LogEntry(Some(e.id), u.id, Create, EventDetails(e.id, e.name), clock)];
      clock := clock + 1;
      r := Success(e);
    }

    /**
     * Updating an event (PUT or PATCH). Only its creator may; the submitted
     * fields are written and the update is logged with their names.
     */
    method UpdateEvent(m: EventPermissions.HttpMethod, actor: Actor, id: EventId, changes: EventChanges)
      returns (r: Result<Event, Error>)
      requires m == EventPermissions.Put || m == EventPermissions.Patch
      requires Valid()
      modifies this
      ensures Valid()
      ensures id !in old(events) ==> r == Failure(NotFound)
      ensures id in old(events) && !EventPermissions.IsEventCreatorOrReadOnly(m, actor, old(events)[id]) ==>
        r == Failure(DenialFor(actor))
      ensures r.Success? <==> id in old(events) && EventPermissions.IsEventCreatorOrReadOnly(m, actor, old(events)[id])
      ensures r.Failure? ==> unchanged(this)
      ensures r.Success? ==>
        && actor.Authenticated?
        && r.value == ApplyChanges(old(events)[id], changes)
        && events == old(events)[id := r.value]
        && participants == old(participants)
        && logs == old(logs) + [LogEntry(Some(id), actor.user.id, Update,
                                         UpdateDetails(id, r.value.name, UpdatedFields(changes)), old(clock))]
      ensures (r.Success? && WithinCapacity(old(events), old(participants))
               && CurrentParticipants(participants, id) <= r.value.capacity) ==> WithinCapacity(events, participants)
    {
      if id !in events {
        return Failure(NotFound);
      }
      if !EventPermissions.IsEventCreatorOrReadOnly(m, actor, events[id]) {
        return Failure(DenialFor(actor));
      }
      var e := ApplyChanges(events[id], changes);
      var entry := LogEntry(Some(id), actor.user.id, Update, UpdateDetails(id, e.name, UpdatedFields(changes)), clock);
      LogAppendKeepsOrder(logs, entry, clock);
      ReplacedEventKeepsCapacity(events, participants, id, e);
      events := events[id := e];
      logs := logs + [entry];
      clock := clock + 1;
      r := Success(e);
    }

    /**
     * Deleting an event. Only its creator may, and only while nobody has
     * joined it. The event's participant rows and log entries go with it;
     * the deletion is logged without an event reference, with the id and
     * name read before the row went.
     */
    method DeleteEvent(actor: Actor, id: EventId) returns (r: Result<(), Error>)
      requires Valid()
      modifies this
      ensures Valid()
      ensures id !in old(events) ==> r == Failure(NotFound)
      ensures id in old(events) && !EventPermissions.IsEventCreatorOrReadOnly(EventPermissions.Delete, actor, old(events)[id]) ==>
        r == Failure(DenialFor(actor))
      ensures (id in old(events) && EventPermissions.IsEventCreatorOrReadOnly(EventPermissions.Delete, actor, old(events)[id])
               && CurrentParticipants(old(participants), id) > 0) ==> r == Failure(HasParticipants)
      ensures r.Success? <==> (id in old(events)
               && EventPermissions.IsEventCreatorOrReadOnly(EventPermissions.Delete, actor, old(events)[id])
               && CurrentParticipants(old(participants), id) == 0)
      ensures r.Failure? ==> unchanged(this)
      ensures r.Success? ==>
        && actor.Authenticated?
        && events == old(events) - {id}
        && participants == CascadeParticipants(old(participants), id) == old(participants)
        && logs == CascadeLogs(old(logs), id) + [LogEntry(None, actor.user.id, Delete,
                                                          EventDetails(id, old(events)[id].name), old(clock))]
      ensures WithinCapacity(old(events), old(participants)) ==> WithinCapacity(events, participants)
    {
      if id !in events {
        return Failure(NotFound);
      }
      var e := events[id];
      if !EventPermissions.IsEventCreatorOrReadOnly(EventPermissions.Delete, actor, e) {
        return Failure(DenialFor(actor));
      }
      if CurrentParticipants(participants, id) > 0 {
        return Failure(HasParticipants);
      }
      var captured := EventDetails(e.id, e.name);
      events := events - {id};
      participants := CascadeParticipants(participants, id);
      logs := CascadeLogs(logs, id) + [LogEntry(None, actor.user.id, Delete, captured, clock)];
      clock := clock + 1;
      r := Success(());
    }

    /**
     * Joining an event. The event must be open, not full, and not already
     * joined by the actor; then one participant row is added and the join
     * is logged.
     */
    method JoinEvent(actor: Actor, id: EventId) returns (r: Result<Participant, Error>)
      requires Valid()
      modifies this
      ensures Valid()
      ensures !actor.Authenticated? ==> r == Failure(NotAuthenticated)
      ensures actor.Authenticated? && id !in old(events) ==> r == Failure(NotFound)
      ensures actor.Authenticated? && id in old(events) && old(events)[id].status != Open ==> r == Failure(NotOpen)
      ensures (actor.Authenticated? && id in old(events) && old(events)[id].status == Open
               && IsFull(old(events)[id], old(participants))) ==> r == Failure(Full)
      ensures (actor.Authenticated? && id in old(events) && old(events)[id].status == Open
               && !IsFull(old(events)[id], old(participants))
               && HasPair(old(participants), id, actor.user.id)) ==> r == Failure(AlreadyJoined)
      ensures r.Success? <==> (actor.Authenticated? && id in old(events) && old(events)[id].status == Open
               && !IsFull(old(events)[id], old(participants)) && !HasPair(old(participants), id, actor.user.id))
      ensures r.Failure? ==> unchanged(this)
      ensures r.Success? ==>
        && r.value.event == id && r.value.user == actor.user.id
        && (forall p :: p in old(participants) ==> p.id != r.value.id)
        && events == old(events)
        && participants == old(participants) + [r.value]
        && logs == old(logs) + [LogEntry(Some(id), actor.user.id, Join,
                                         ParticipantDetails(id, events[id].name, r.value.id), old(clock))]
        && CurrentParticipants(participants, id) == CurrentParticipants(old(participants), id) + 1
        && CurrentParticipants(participants, id) <= events[id].capacity
        && (forall x :: x != id ==> CurrentParticipants(participants, x) == CurrentParticipants(old(participants), x))
      ensures WithinCapacity(old(events), old(participants)) ==> WithinCapacity(events, participants)
    {
      if !actor.Authenticated? {
        return Failure(NotAuthenticated);
      }
      if id !in events {
        return Failure(NotFound);
      }
      var e := events[id];
      if e.status != Open {
        return Failure(NotOpen);
      }
      if IsFull(e, participants) {
        return Failure(Full);
      }
      var u := actor.user;
      if LookupParticipant(participants, id, u.id).Some? {
        return Failure(AlreadyJoined);
      }
      var p := Participant(nextParticipantId, id, u.id);
      UniquePairsAppend(participants, p);
      forall x ensures CurrentParticipants(participants + [p], x)
                       == CurrentParticipants(participants, x) + (if x == id then 1 else 0) {
        CountAppend(participants, p, x);
      }
      participants := participants + [p];
      nextParticipantId := nextParticipantId + 1;
      logs := logs + [LogEntry(Some(id), u.id, Join, ParticipantDetails(id, e.name, p.id), clock)];
      clock := clock + 1;
      r := Success(p);
    }

    /**
     * Leaving an event. The actor's participant row of the event must
     * exist; it alone is deleted and the departure is logged.
     */
    method LeaveEvent(actor: Actor, id: EventId) returns (r: Result<(), Error>)
      requires Valid()
      modifies this
      ensures Valid()
      ensures !actor.Authenticated? ==> r == Failure(NotAuthenticated)
      ensures actor.Authenticated? && id !in old(events) ==> r == Failure(NotFound)
      ensures actor.Authenticated? && id in old(events) && !HasPair(old(participants), id, actor.user.id) ==>
        r == Failure(NotFound)
      ensures r.Success? <==> actor.Authenticated? && id in old(events) && HasPair(old(participants), id, actor.user.id)
      ensures r.Failure? ==> unchanged(this)
      ensures r.Success? ==>
        && events == old(events)
        && participants == RemovePair(old(participants), id, actor.user.id)
        && (forall p :: p in participants <==> p in old(participants) && !(p.event == id && p.user == actor.user.id))
        && logs == old(logs) + [LogEntry(Some(id), actor.user.id, Leave,
                                         ParticipantDetails(id, events[id].name,
                                           LookupParticipant(old(participants), id, actor.user.id).value.id),
                                         old(clock))]
        && CurrentParticipants(participants, id) == CurrentParticipants(old(participants), id) - 1
        && (forall x :: x != id ==> CurrentParticipants(participants, x) == CurrentParticipants(old(participants), x))
      ensures WithinCapacity(old(events), old(participants)) ==> WithinCapacity(events, participants)
    {
      if !actor.Authenticated? {
        return Failure(NotAuthenticated);
      }
      if id !in events {
        return Failure(NotFound);
      }
      var e := events[id];
      var u := actor.user;
      var found := LookupParticipant(participants, id, u.id);
      if found.None? {
        return Failure(NotFound);
      }
      var captured := ParticipantDetails(id, e.name, found.value.id);
      var rest := RemovePair(participants, id, u.id);
      UniquePairsFilter(participants, (p: Participant) => !(p.event == id && p.user == u.id));
      forall x ensures CurrentParticipants(rest, x)
                       == CurrentParticipants(participants, x) - (if x == id then 1 else 0) {
        CountRemovePair(participants, id, u.id, x);
      }
      participants := rest;
      logs := logs + [LogEntry(Some(id), u.id, Leave, captured, clock)];
      clock := clock + 1;
      r := Success(());
    }

    /**
     * The participant list of an event: for its creator only, exactly the
     * event's participant rows, as many as its participant count.
     */
    function ParticipantList(actor: Actor, id: EventId): (r: Result<seq<Participant>, Error>)
      reads this
      ensures !actor.Authenticated? ==> r == Failure(NotAuthenticated)
      ensures actor.Authenticated? && id !in events ==> r == Failure(NotFound)
      ensures actor.Authenticated? && id in events && !EventPermissions.IsEventCreator(actor, events[id]) ==>
        r == Failure(PermissionDenied)
      ensures r.Success? <==> id in events && EventPermissions.IsEventCreator(actor, events[id])
      ensures r.Success? ==>
        && (forall p :: p in r.value <==> p in participants && p.event == id)
        && |r.value| == CurrentParticipants(participants, id)
    {
      if !actor.Authenticated? then Failure(NotAuthenticated)
      else if id !in events then Failure(NotFound)
      else if !EventPermissions.IsEventCreator(actor, events[id]) then Failure(PermissionDenied)
      else
        var atEvent := (p: Participant) => p.event == id;
        CountMatchesFilter(participants, id, atEvent);
        Success(Seqs.Filter(participants, atEvent))
    }

    /**
     * The log list of an event: for its creator only, exactly the entries
     * that refer to the event, newest first.
     */
    function EventLogList(actor: Actor, id: EventId): (r: Result<seq<LogEntry>, Error>)
      reads this
      ensures !actor.Authenticated? ==> r == Failure(NotAuthenticated)
      ensures actor.Authenticated? && id !in events ==> r == Failure(NotFound)
      ensures actor.Authenticated? && id in events && !EventPermissions.IsEventCreator(actor, events[id]) ==>
        r == Failure(PermissionDenied)
      ensures r.Success? <==> id in events && EventPermissions.IsEventCreator(actor, events[id])
      ensures r.Success? ==> forall l :: l in r.value <==> l in logs && l.event == Some(id)
      ensures r.Success? && TimestampsIncreasing(logs) ==> TimestampsDecreasing(r.value)
    {
      if !actor.Authenticated? then Failure(NotAuthenticated)
      else if id !in events then Failure(NotFound)
      else if !EventPermissions.IsEventCreator(actor, events[id]) then Failure(PermissionDenied)
      else
        var aboutEvent := (l: LogEntry) => l.event == Some(id);
        var scoped := Seqs.Filter(logs, aboutEvent);
        FilterKeepsTimestampOrder(logs, aboutEvent);
        ReverseOfIncreasingIsDecreasing(scoped);
        Success(Seqs.Reverse(scoped))
    }
  }

  /**
   * An event of capacity two: two users join and fill it, a third is
   * turned away, and one leaving frees a place again.
   */
  method CapacityScenario() {
    var store := new EventStore();
    var owner := User(1, "owner@example.org", EventCreator);
    var a, b, c := User(2, "a@example.org", RegularUser), User(3, "b@example.org", RegularUser),
                   User(4, "c@example.org", RegularUser);
    var created := store.CreateEvent(Authenticated(owner), EventFields("Meetup", "talks", 2, 100, "hall", None));
    assert created.Success?;
    var id := created.value.id;
    assert store.events[id].status == Open;

    var joinA := store.JoinEvent(Authenticated(a), id);
    assert joinA.Success?;
    assert CurrentParticipants(store.participants, id) == 1;

    var joinB := store.JoinEvent(Authenticated(b), id);
    assert joinB.Success?;
    assert CurrentParticipants(store.participants, id) == 2;
    assert IsFull(store.events[id], store.participants);

    var joinC := store.JoinEvent(Authenticated(c), id);
    assert joinC == Failure(Full);
    assert CurrentParticipants(store.participants, id) == 2;

    var leaveA := store.LeaveEvent(Authenticated(a), id);
    assert leaveA.Success?;
    assert CurrentParticipants(store.participants, id) == 1;
    assert !IsFull(store.events[id], store.participants);
  }
}
