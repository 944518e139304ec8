/**
 * The query filters of the event listing. Each takes the events in listing
 * order and keeps those whose row passes one test on its date, capacity,
 * participant count, status or creator.
 */
module EventFilters {
  import opened UserModels
  import opened EventModels
  import Seqs

  /** date_from: events on or after `v`. */
  function DateFrom(es: seq<Event>, v: int): (r: seq<Event>)
    ensures forall e :: e in r <==> e in es && v <= e.date
    ensures Seqs.IsSubsequence(r, es)
  {
    Seqs.Filter(es, (e: Event) => e.date >= v)
  }

  /** date_to: events on or before `v`. */
  function DateTo(es: seq<Event>, v: int): (r: seq<Event>)
    ensures forall e :: e in r <==> e in es && e.date <= v
    ensures Seqs.IsSubsequence(r, es)
  {
    Seqs.Filter(es, (e: Event) => e.date <= v)
  }

  /** min_capacity: events whose total capacity is at least `v`, however many have joined. */
  function MinCapacity(es: seq<Event>, v: int): (r: seq<Event>)
    ensures forall e :: e in r <==> e in es && e.capacity >= v
    ensures Seqs.IsSubsequence(r, es)
  {
    Seqs.Filter(es, (e: Event) => e.capacity >= v)
  }

  /** max_capacity: events whose total capacity is at most `v`. */
  function MaxCapacity(es: seq<Event>, v: int): (r: seq<Event>)
    ensures forall e :: e in r <==> e in es && e.capacity <= v
    ensures Seqs.IsSubsequence(r, es)
  {
    Seqs.Filter(es, (e: Event) => e.capacity <= v)
  }

  /**
   * has_capacity: with `value` true the events with fewer participants than
   * places; with `value` false the others.
   */
  function HasCapacity(es: seq<Event>, ps: seq<Participant>, value: bool): (r: seq<Event>)
    ensures value ==> forall e :: e in r <==> e in es && CurrentParticipants(ps, e.id) < e.capacity
    ensures !value ==> forall e :: e in r <==> e in es && IsFull(e, ps)
    ensures Seqs.IsSubsequence(r, es)
  {
    if value then Seqs.Filter(es, (e: Event) => CurrentParticipants(ps, e.id) < e.capacity)
    else Seqs.Filter(es, (e: Event) => CurrentParticipants(ps, e.id) >= e.capacity)
  }

  /** The two answers of has_capacity split the events between them, each event once. */
  lemma {:induction false} HasCapacityPartition(es: seq<Event>, ps: seq<Participant>)
    ensures multiset(HasCapacity(es, ps, true)) + multiset(HasCapacity(es, ps, false)) == multiset(es)
  {
    if es != [] {
      HasCapacityPartition(es[1..], ps);
      var open, full := HasCapacity(es, ps, true), HasCapacity(es, ps, false);
      var open', full' := HasCapacity(es[1..], ps, true), HasCapacity(es[1..], ps, false);
      if CurrentParticipants(ps, es[0].id) < es[0].capacity {
        assert open == [es[0]] + open' && full == full';
      } else {
        assert open == open' && full == [es[0]] + full';
      }
      assert es == [es[0]] + es[1..];
    }
  }

  /** upcoming: with `value` true the events dated now or later; with `value` false the past ones. */
  function Upcoming(es: seq<Event>, now: int, value: bool): (r: seq<Event>)
    ensures value ==> forall e :: e in r <==> e in es && now <= e.date
    ensures !value ==> forall e :: e in r <==> e in es && IsPast(e, now)
    ensures Seqs.IsSubsequence(r, es)
  {
    if value then Seqs.Filter(es, (e: Event) => e.date >= now)
    else Seqs.Filter(es, (e: Event) => e.date < now)
  }

  /** The two answers of upcoming split the events between them, each event once. */
  lemma {:induction false} UpcomingPartition(es: seq<Event>, now: int)
    ensures multiset(Upcoming(es, now, true)) + multiset(Upcoming(es, now, false)) == multiset(es)
  {
    if es != [] {
      UpcomingPartition(es[1..], now);
      var ahead, past := Upcoming(es, now, true), Upcoming(es, now, false);
      var ahead', past' := Upcoming(es[1..], now, true), Upcoming(es[1..], now, false);
      if es[0].date >= now {
        assert ahead == [es[0]] + ahead' && past == past';
      } else {
        assert ahead == ahead' && past == [es[0]] + past';
      }
      assert es == [es[0]] + es[1..];
    }
  }

  /**
   * The past events are exactly the events the upcoming filter leaves out,
   * and an event is past exactly when it is not dated now or later.
   */
  lemma PastIsNotUpcoming(es: seq<Event>, now: int)
    ensures forall e :: e in Upcoming(es, now, false) <==> e in es && e !in Upcoming(es, now, true)
    ensures forall e :: IsPast(e, now) <==> !(now <= e.date)
  {}

  /** status: events with the given status. */
  function WithStatus(es: seq<Event>, s: Status): (r: seq<Event>)
    ensures forall e :: e in r <==> e in es && e.status == s
    ensures Seqs.IsSubsequence(r, es)
  {
    Seqs.Filter(es, (e: Event) => e.status == s)
  }

  /** creator: events created by the given user. */
  function WithCreator(es: seq<Event>, u: UserId): (r: seq<Event>)
    ensures forall e :: e in r <==> e in es && e.creator == u
    ensures Seqs.IsSubsequence(r, es)
  {
    Seqs.Filter(es, (e: Event) => e.creator == u)
  }
}
