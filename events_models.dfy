/**
 * The records of the events app: an event with its capacity, status and
 * creator; a participant row linking one user to one event; and an audit
 * log entry. Also the values derived from them: the participant count,
 * fullness and past-ness of an event, and the cascades that run when an
 * event row is removed.
 */
module EventModels {
  import opened Wrappers
  import opened UserModels
  import Seqs

  type EventId = nat
  type ParticipantId = nat

  /** The status choices of an event. */
  datatype Status = Open | Closed | Canceled

  /** A new event is open unless it is given another status. */
  const DefaultStatus: Status := Open

  /** The value stored in the status column for each choice. */
  function StatusValue(s: Status): string {
    match s
    case Open => "open"
    case Closed => "closed"
    case Canceled => "canceled"
  }

  /** Reads a status column value back; a value outside the three choices is rejected. */
  function ParseStatus(v: string): (r: Option<Status>)
    ensures r.Some? ==> StatusValue(r.value) == v
  {
    if v == "open" then Some(Open)
    else if v == "closed" then Some(Closed)
    else if v == "canceled" then Some(Canceled)
    else None
  }

  lemma StatusValueRoundTrip(s: Status)
    ensures ParseStatus(StatusValue(s)) == Some(s)
  {}

  /**
   * An event row. The capacity is a non-negative integer (so 0 is admitted);
   * dates are instants given as integers.
   */
  datatype Event = Event(
    id: EventId,
    name: string,
    description: string,
    capacity: nat,
    date: int,
    location: string,
    status: Status,
    creator: UserId)

  /** A participant row: `user` has joined `event`. */
  datatype Participant = Participant(id: ParticipantId, event: EventId, user: UserId)

  /** The action choices of a log entry. */
  datatype Action = Create | Update | Delete | Join | Leave

  /** The writable fields of an event, as named in an update log. */
  datatype Field = Name | Description | Capacity | Date | Location | StatusField

  /** The structured details a log entry records. */
  datatype Details =
    | EventDetails(eventId: EventId, eventName: string)
    | UpdateDetails(eventId: EventId, eventName: string, updatedFields: seq<Field>)
    | ParticipantDetails(eventId: EventId, eventName: string, participantId: ParticipantId)

  /**
   * An audit log entry. The event reference is optional: the log of a
   * deletion refers to no event. `timestamp` is the entry's place on the
   * store's clock.
   */
  datatype LogEntry = LogEntry(
    event: Option<EventId>,
    user: UserId,
    action: Action,
    details: Details,
    timestamp: nat)

  /** The number of participant rows of event `e`. */
  function CurrentParticipants(ps: seq<Participant>, e: EventId): (n: nat)
    ensures n <= |ps|
    ensures n == 0 <==> forall p :: p in ps ==> p.event != e
  {
    if ps == [] then 0
    else (if ps[0].event == e then 1 else 0) + CurrentParticipants(ps[1..], e)
  }

  /** An event is full once it has as many participants as places. */
  function IsFull(e: Event, ps: seq<Participant>): (full: bool)
    ensures e.capacity == 0 ==> full
    ensures !full ==> CurrentParticipants(ps, e.id) < e.capacity
  {
    CurrentParticipants(ps, e.id) >= e.capacity
  }

  /** An event is past once its date lies before `now`. */
  predicate IsPast(e: Event, now: int) {
    e.date < now
  }

  /** Some participant row links user `u` to event `e`. */
  predicate HasPair(ps: seq<Participant>, e: EventId, u: UserId) {
    exists p :: p in ps && p.event == e && p.user == u
  }

  /** No (event, user) pair has two participant rows. */
  predicate UniquePairs(ps: seq<Participant>) {
    ps == [] || (!HasPair(ps[1..], ps[0].event, ps[0].user) && UniquePairs(ps[1..]))
  }

  /** Under UniquePairs, two distinct rows never share both event and user. */
  lemma {:induction false} UniquePairsNoTwoShare(ps: seq<Participant>)
    requires UniquePairs(ps)
    ensures forall i, j :: 0 <= i < j < |ps| ==> ps[i].event != ps[j].event || ps[i].user != ps[j].user
  {
    if ps != [] {
      UniquePairsNoTwoShare(ps[1..]);
      forall i, j | 0 <= i < j < |ps|
        ensures ps[i].event != ps[j].event || ps[i].user != ps[j].user
      {
        if i == 0 {
          assert ps[j] == ps[1..][j - 1];
          assert ps[j] in ps[1..];
        } else {
          assert ps[i] == ps[1..][i - 1] && ps[j] == ps[1..][j - 1];
        }
      }
    }
  }

  /** Appending a row for a pair not yet present keeps the pairs unique. */
  lemma {:induction false} UniquePairsAppend(ps: seq<Participant>, p: Participant)
    requires UniquePairs(ps) && !HasPair(ps, p.event, p.user)
    ensures UniquePairs(ps + [p])
  {
    if ps == [] {
      assert [p][1..] == [];
    } else {
      assert (ps + [p])[1..] == ps[1..] + [p];
      assert ps[0] in ps;
      assert !HasPair(ps[1..], p.event, p.user) by {
        forall q | q in ps[1..] ensures !(q.event == p.event && q.user == p.user) {
          assert q in ps;
        }
      }
      UniquePairsAppend(ps[1..], p);
      assert !HasPair(ps[1..] + [p], ps[0].event, ps[0].user) by {
        forall q | q in ps[1..] + [p] ensures !(q.event == ps[0].event && q.user == ps[0].user) {
          if q != p {
            assert q in ps[1..];
          }
        }
      }
    }
  }

  /** Dropping rows keeps the pairs unique. */
  lemma {:induction false} UniquePairsFilter(ps: seq<Participant>, keep: Participant -> bool)
    requires UniquePairs(ps)
    ensures UniquePairs(Seqs.Filter(ps, keep))
  {
    if ps != [] {
      UniquePairsFilter(ps[1..], keep);
      var rest := Seqs.Filter(ps[1..], keep);
      if keep(ps[0]) {
        var r := [ps[0]] + rest;
        assert Seqs.Filter(ps, keep) == r;
        assert r[1..] == rest;
        assert !HasPair(rest, ps[0].event, ps[0].user) by {
          forall q | q in rest ensures !(q.event == ps[0].event && q.user == ps[0].user) {
            assert q in ps[1..];
          }
        }
      }
    }
  }

  /** The participant row of the pair (e, u), if there is one. */
  function LookupParticipant(ps: seq<Participant>, e: EventId, u: UserId): (r: Option<Participant>)
    ensures r.Some? <==> HasPair(ps, e, u)
    ensures r.Some? ==> r.value in ps && r.value.event == e && r.value.user == u
  {
    if ps == [] then None
    else if ps[0].event == e && ps[0].user == u then Some(ps[0])
    else
      assert forall p :: p in ps ==> p == ps[0] || p in ps[1..];
      LookupParticipant(ps[1..], e, u)
  }

  /** The participant rows with the row of the pair (e, u) deleted. */
  function RemovePair(ps: seq<Participant>, e: EventId, u: UserId): (r: seq<Participant>)
    ensures forall p :: p in r <==> p in ps && !(p.event == e && p.user == u)
  {
    Seqs.Filter(ps, (p: Participant) => !(p.event == e && p.user == u))
  }

  /** A new row of event `x` adds one to x's count and leaves every other count alone. */
  lemma {:induction false} CountAppend(ps: seq<Participant>, p: Participant, x: EventId)
    ensures CurrentParticipants(ps + [p], x) == CurrentParticipants(ps, x) + (if p.event == x then 1 else 0)
  {
    if ps == [] {
      assert [p][1..] == [];
    } else {
      assert (ps + [p])[1..] == ps[1..] + [p];
      CountAppend(ps[1..], p, x);
    }
  }

  /**
   * With unique pairs, deleting the row of (e, u) takes one from e's count
   * and leaves every other count alone.
   */
  lemma {:induction false} CountRemovePair(ps: seq<Participant>, e: EventId, u: UserId, x: EventId)
    requires UniquePairs(ps) && HasPair(ps, e, u)
    ensures CurrentParticipants(RemovePair(ps, e, u), x) == CurrentParticipants(ps, x) - (if x == e then 1 else 0)
  {
    assert ps != [];
    if ps[0].event == e && ps[0].user == u {
      assert RemovePair(ps, e, u) == RemovePair(ps[1..], e, u);
      assert forall p :: p in ps[1..] ==> !(p.event == e && p.user == u);
      Seqs.FilterKeepsAll(ps[1..], (p: Participant) => !(p.event == e && p.user == u));
      assert RemovePair(ps[1..], e, u) == ps[1..];
    } else {
      assert HasPair(ps[1..], e, u) by {
        var p :| p in ps && p.event == e && p.user == u;
        assert p != ps[0];
        assert p in ps[1..];
      }
      CountRemovePair(ps[1..], e, u, x);
      var r := RemovePair(ps, e, u);
      assert r == [ps[0]] + RemovePair(ps[1..], e, u);
      assert r[1..] == RemovePair(ps[1..], e, u);
    }
  }

  /** The participant rows of event `e` are as many as its count says. */
  lemma {:induction false} CountMatchesFilter(ps: seq<Participant>, e: EventId, keep: Participant -> bool)
    requires forall p :: keep(p) <==> p.event == e
    ensures |Seqs.Filter(ps, keep)| == CurrentParticipants(ps, e)
  {
    if ps != [] {
      CountMatchesFilter(ps[1..], e, keep);
    }
  }

  /** What remains of the participant rows once event `e` is removed (on_delete CASCADE). */
  function CascadeParticipants(ps: seq<Participant>, e: EventId): (r: seq<Participant>)
    ensures forall p :: p in r <==> p in ps && p.event != e
    ensures CurrentParticipants(r, e) == 0
    ensures CurrentParticipants(ps, e) == 0 ==> r == ps
  {
    Seqs.FilterKeepsAll(ps, (p: Participant) => p.event != e);
    Seqs.Filter(ps, (p: Participant) => p.event != e)
  }

  /** Log timestamps strictly increase along the log. */
  ghost predicate TimestampsIncreasing(ls: seq<LogEntry>) {
    forall i, j :: 0 <= i < j < |ls| ==> ls[i].timestamp < ls[j].timestamp
  }

  /** Log timestamps strictly decrease along the sequence: newest first. */
  ghost predicate TimestampsDecreasing(ls: seq<LogEntry>) {
    forall i, j :: 0 <= i < j < |ls| ==> ls[i].timestamp > ls[j].timestamp
  }

  /** In an ordered log, the entries after the first are ordered and all later than it. */
  lemma TailIsLater(ls: seq<LogEntry>)
    requires ls != [] && TimestampsIncreasing(ls)
    ensures TimestampsIncreasing(ls[1..])
    ensures forall l :: l in ls[1..] ==> ls[0].timestamp < l.timestamp
  {
    forall l | l in ls[1..] ensures ls[0].timestamp < l.timestamp {
      var k :| 0 <= k < |ls[1..]| && ls[1..][k] == l;
      assert l == ls[k + 1];
    }
  }

  /** An entry earlier than every entry of an ordered log can go in front of it. */
  lemma PrependKeepsOrder(l: LogEntry, rest: seq<LogEntry>)
    requires TimestampsIncreasing(rest)
    requires forall m :: m in rest ==> l.timestamp < m.timestamp
    ensures TimestampsIncreasing([l] + rest)
  {
    var r := [l] + rest;
    forall i, j | 0 <= i < j < |r| ensures r[i].timestamp < r[j].timestamp {
      assert r[j] == rest[j - 1];
      if i == 0 {
        assert rest[j - 1] in rest;
      } else {
        assert r[i] == rest[i - 1];
      }
    }
  }

  /** Leaving entries out of an ordered log keeps it ordered. */
  lemma {:induction false} FilterKeepsTimestampOrder(ls: seq<LogEntry>, keep: LogEntry -> bool)
    ensures TimestampsIncreasing(ls) ==> TimestampsIncreasing(Seqs.Filter(ls, keep))
  {
    if ls != [] && TimestampsIncreasing(ls) {
      TailIsLater(ls);
      FilterKeepsTimestampOrder(ls[1..], keep);
      var rest := Seqs.Filter(ls[1..], keep);
      if keep(ls[0]) {
        assert Seqs.Filter(ls, keep) == [ls[0]] + rest;
        PrependKeepsOrder(ls[0], rest);
      } else {
        assert Seqs.Filter(ls, keep) == rest;
      }
    }
  }

  /** Reversing an ordered log puts it newest first. */
  lemma ReverseOfIncreasingIsDecreasing(ls: seq<LogEntry>)
    ensures TimestampsIncreasing(ls) ==> TimestampsDecreasing(Seqs.Reverse(ls))
  {
    var r := Seqs.Reverse(ls);
    if TimestampsIncreasing(ls) {
      forall i, j | 0 <= i < j < |r| ensures r[i].timestamp > r[j].timestamp {
        assert r[i] == ls[|ls| - 1 - i] && r[j] == ls[|ls| - 1 - j];
      }
    }
  }

  /** What remains of the log once event `e` is removed (on_delete CASCADE). */
  function CascadeLogs(ls: seq<LogEntry>, e: EventId): (r: seq<LogEntry>)
    ensures forall l :: l in r <==> l in ls && l.event != Some(e)
    ensures TimestampsIncreasing(ls) ==> TimestampsIncreasing(r)
  {
    FilterKeepsTimestampOrder(ls, (l: LogEntry) => l.event != Some(e));
    Seqs.Filter(ls, (l: LogEntry) => l.event != Some(e))
  }

  /** Every event holds no more participants than it has places. */
  ghost predicate WithinCapacity(events: map<EventId, Event>, ps: seq<Participant>) {
    forall id :: id in events ==> CurrentParticipants(ps, id) <= events[id].capacity
  }
}
