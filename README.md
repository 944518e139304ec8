# EventHub core in Dafny

EventHub is a Django/REST service for events. Users sign up, event creators publish events with a capacity, users join and leave them, and every change is written to an audit log. This project models the part of EventHub that decides what happens:

- **The store** (`EventViews.EventStore`). A class holding:
  - the event rows by id;
  - the participant rows (one per (event, user) pair);
  - the audit log in write order;
  - the next free ids;
  - a clock that stamps log entries.

  Its methods are the five write endpoints: create, update, delete, join and leave. Each method runs all its checks before it writes anything, so a refused request leaves the store unchanged. A successful request appends exactly one log entry. Every method keeps the store invariant `Valid()`:
  - ids match their rows;
  - each (event, user) pair has at most one participant row;
  - every row and log entry refers to a stored event;
  - log timestamps strictly increase.

  Every method also keeps "no event holds more participants than places" (`WithinCapacity`). Update keeps it only when the new capacity is still large enough, because the code does not check this. The two event-scoped lists (participants, log entries) are functions that read the store.
- **Records and derived values** (`EventModels`):
  - the event, participant and log entry records;
  - the status and action choices;
  - the participant count, fullness and past-ness of an event;
  - the unique (event, user) constraint;
  - the cascades that run when an event row is deleted.
- **Users and roles** (`UserModels`): the three roles and their stored values, the default role, the role predicates, and the unique email.
- **Permissions** (`UserPermissions`, `EventPermissions`): each permission class is a boolean function of the actor, the request method and the event.
- **Log visibility** (`LogViews`): the role-scoped audit-log listing, newest first.
- **Listing filters** (`EventFilters` and `EventViews.ListEvents`): each filter keeps the events that pass a test and preserves their order.

`Seqs` holds the generic sequence helpers the model is built on: `Filter`, `Reverse`, subsequence and no-repeats. `Wrappers` holds `Option` and `Result`. Endpoint errors are values of `EventViews.Error`. A refused object permission yields `NotAuthenticated` for an anonymous actor and `PermissionDenied` for a signed-in one, as the REST framework answers 401 or 403.

Dates and "now" are integers passed in. A log entry's timestamp is the store clock's reading when the entry was written. Ordering by timestamp, newest first, is therefore the reverse of write order.

Behaviours of the code that the model keeps:
- Deleting an event deletes its earlier log entries (`on_delete=CASCADE`, events/models.py:64). Their event reference is not set to null.
- The creation quota counts only the creator's events whose status is open (events/views.py:51-54).
- Anyone may list events, signed in or not (events/views.py:22-25).
- Only an event's creator may write it; administrators get no override (events/permissions.py:10-11).

Points where the model departs from the code as written:
- The store's `CreateEvent` uses the corrected create permission `EventPermissions.IsAdminOrCreator` and the corrected quota test `EventViews.QuotaApplies` (see Findings). As written, every create request from a signed-in user is refused with 403 (events/views.py:24, with events/permissions.py:22-24). Even past that, the quota would bind administrators too (events/views.py:50). The as-written tests are `EventPermissions.IsAdminOrCreatorAsWritten` and `EventViews.QuotaAppliesAsWritten`.
- events/views.py:44 uses `models.F` without importing `models`. Listing with `capacity=true` would therefore fail at run time. `ListEvents` models the intended test: fewer participants than places.
- events/filters.py:9 evaluates `Event.Status.choices` in the class body, but the event model declares `STATUS_CHOICES`. Defining `EventFilter` would therefore raise `AttributeError`, so none of its filters runs as written. In addition, no view uses `EventFilter`: the listing filters only on `status` through `filterset_fields` (events/views.py:16-17). `EventFilters` models the intended filters of events/filters.py:7-47 on their own. `ListEvents` models the listing's `status` filter with `EventFilters.WithStatus`.
- The role-scoped log listing (logs/views.py:3, 21-38) queries the `EventLog` table of logs/models.py. None of the five endpoints writes to that table: they write the `EventLog` of events/models.py (events/views.py:9, 67, 85, 117, 172, 210). As written, the listing therefore reads a table the core never fills. The model merges the two tables into the store's one log, and `LogViews.VisibleLogs` reads that log.
- In `perform_create` (events/views.py:57-61), the quota refusal returns a `Response` that the framework's create handler discards. The client therefore sees a success response while nothing is stored. The model keeps the state effect: nothing is stored, and the refusal is reported as `QuotaReached`.

## Model

| member | source | states |
|---|---|---|
| UserModels.ParseRole | users/models.py:7-10 | a role value is read back only when it is one of ADMIN, EVENT_CREATOR, REGULAR_USER, and then it is that role's stored value |
| UserModels.RoleValueRoundTrip | users/models.py:7-10 | reading back the stored value of any role gives that role |
| UserModels.LowerCaseWordsAreNotRoles | users/models.py:8-10 | "admin" and "creator" are not role values: no role stores them and neither reads back as a role |
| UserModels.DefaultRoleIsRegular | users/models.py:13-17 | a user created with the default role is a regular user and neither admin nor event creator |
| UserModels.ExactlyOneRole | users/models.py:33-43 | every user satisfies exactly one of is_admin, is_event_creator, is_regular_user |
| UserModels.AddUser | users/models.py:12 | a new user row is refused exactly when its email is taken; otherwise it is appended, and emails stay unique |
| UserPermissions.IsAdminUser | users/permissions.py:3-5 | allows exactly signed-in actors whose role is ADMIN |
| UserPermissions.IsEventCreator | users/permissions.py:7-12 | allows exactly signed-in actors who are not regular users (event creators and admins) |
| UserPermissions.IsSelfOrAdmin | users/permissions.py:14-18 | allows exactly signed-in actors addressing their own record, and signed-in admins for any record |
| UserPermissions.AnonymousDenied | users/permissions.py:3-18 | an anonymous actor passes none of the three permissions |
| UserPermissions.AdminPassesTheOthers | users/permissions.py:3-18 | whoever passes IsAdminUser passes IsEventCreator and IsSelfOrAdmin for every record |
| EventModels.ParseStatus | events/models.py:7-11 | a status value is read back only when it is open, closed or canceled, and then it is that status's stored value |
| EventModels.StatusValueRoundTrip | events/models.py:7-11 | reading back the stored value of any status gives that status |
| EventModels.CurrentParticipants | events/models.py:29-31 | the participant count of an event is at most the number of rows, and is zero exactly when no row names the event |
| EventModels.IsFull | events/models.py:33-35 | an event of capacity 0 is always full; an event that is not full has fewer participants than places |
| EventFilters.PastIsNotUpcoming | events/models.py:37-39 | an event is past exactly when it is not dated now or later, so the past events are exactly those upcoming=true leaves out (with events/filters.py:44-47) |
| EventModels.UniquePairsNoTwoShare | events/models.py:49 | under the unique (event, user) constraint no two rows share both event and user |
| EventModels.UniquePairsAppend | events/models.py:49 | adding a row for a pair not yet present keeps the pairs unique |
| EventModels.UniquePairsFilter | events/models.py:49 | deleting rows keeps the pairs unique |
| EventModels.LookupParticipant | events/views.py:196 | finds a row of the pair exactly when one exists, and the row found is of that event and user |
| EventModels.RemovePair | events/views.py:207 | after deleting the pair's row exactly the other rows remain |
| EventModels.CountAppend | events/models.py:30-31 | a new row adds one to its event's count and leaves every other event's count alone |
| EventModels.CountRemovePair | events/models.py:30-31 | with unique pairs, deleting an existing pair's row takes one from its event's count and leaves every other count alone |
| EventModels.CountMatchesFilter | events/models.py:30-31 | the rows of an event are exactly as many as its participant count |
| EventModels.CascadeParticipants | events/models.py:43 | deleting an event leaves exactly the rows of other events and none of its own; with no rows of its own nothing changes |
| EventModels.CascadeLogs | events/models.py:64 | deleting an event leaves exactly the log entries that do not refer to it, still in timestamp order |
| EventModels.FilterKeepsTimestampOrder | events/models.py:70-71 | a log in timestamp order stays in order when entries are left out |
| EventModels.ReverseOfIncreasingIsDecreasing | events/models.py:70-71 | a log in write order, reversed, is newest first |
| EventPermissions.IsEventCreator | events/permissions.py:14-17 | allows exactly the signed-in actor who created the event, whatever the method |
| EventPermissions.IsEventCreatorOrReadOnly | events/permissions.py:4-11 | allows every safe method to anyone; allows a write exactly to the event's creator |
| EventPermissions.WritesNeedTheCreator | events/permissions.py:4-17 | on writes the two object permissions give the same answer |
| EventPermissions.NoAdminOverride | events/permissions.py:10-11 | an administrator who did not create an event may not write it |
| EventPermissions.IsAdminOrCreatorAsWritten | events/permissions.py:20-24 | as written, comparing the role with "admin" or "creator" refuses every actor |
| EventPermissions.IsAdminOrCreator | events/permissions.py:20-24 | as intended, allows exactly signed-in administrators and event creators |
| EventFilters.DateFrom | events/filters.py:7 | keeps exactly the events dated on or after the value, in order |
| EventFilters.DateTo | events/filters.py:8 | keeps exactly the events dated on or before the value, in order |
| EventFilters.WithStatus | events/filters.py:9 | keeps exactly the events of the given status, in order |
| EventFilters.WithCreator | events/filters.py:17 | keeps exactly the events of the given creator, in order |
| EventFilters.MinCapacity | events/filters.py:19-21 | keeps exactly the events of total capacity at least the value, in order |
| EventFilters.MaxCapacity | events/filters.py:23-25 | keeps exactly the events of total capacity at most the value, in order |
| EventFilters.HasCapacity | events/filters.py:28-38 | true keeps exactly the events with fewer participants than places; false keeps exactly the full ones; order kept |
| EventFilters.HasCapacityPartition | events/filters.py:35-38 | the true and false answers together hold every input event exactly once |
| EventFilters.Upcoming | events/filters.py:41-47 | true keeps exactly the events dated now or later; false keeps exactly the past ones; order kept |
| EventFilters.UpcomingPartition | events/filters.py:44-47 | the true and false answers together hold every input event exactly once |
| LogViews.VisibleLogs | logs/views.py:12-38 | anonymous actors get nothing; admins see every entry; event creators see exactly the entries of events they created; regular users see exactly the entries of events they joined; never an entry outside the log; newest first |
| EventViews.UpdatedFields | events/views.py:92 | the logged field names are exactly the submitted fields |
| EventViews.UpdatedFieldsDistinct | events/views.py:92 | no field name is logged twice |
| EventViews.ApplyChanges | events/views.py:82 | an update writes each submitted field's new value, keeps the id and the creator, and leaves every field that was not submitted as it was |
| EventViews.ApplyChangesIdempotent | events/views.py:82 | applying the same changes twice gives the same event as once |
| EventViews.EmptyUpdateChangesNothing | events/views.py:80-94 | an update submitting no field leaves the event as it was and logs no field name |
| EventViews.StatusOrDefault | events/models.py:18 | a new event is open unless a status is given, and then has that status |
| EventViews.OpenEventsOf | events/views.py:51-54 | the ids counted by the quota are exactly the user's open events |
| EventViews.OpenEventsAfterInsert | events/views.py:51-64 | creating one event adds at most one to its creator's open events |
| EventViews.QuotaAppliesAsWritten | events/views.py:50 | as written, comparing the role with "admin" subjects every user to the quota |
| EventViews.QuotaAsWrittenBindsAdmins | events/views.py:49-57 | an administrator is bound by the quota as written, but exempt under the intended test |
| EventViews.QuotaApplies | events/views.py:49-57 | as intended, the quota binds exactly the users who are not administrators |
| EventViews.ListEvents | events/views.py:27-46 | the listing keeps exactly the events dated on or after the date parameter (when given), not full (with capacity=true), and of the status parameter (when given); order kept |
| EventViews.EventStore.CreateEvent | events/views.py:48-72 | anonymous and regular users are refused; a non-admin holding five open events is refused with nothing changed; otherwise exactly one new event owned by the actor is stored, open unless told otherwise, with one create log; the quota bound and the invariants hold afterwards |
| EventViews.EventStore.UpdateEvent | events/views.py:80-94 | a missing event is not found; only its creator may write it; a refusal changes nothing; otherwise the stored event becomes `ApplyChanges` of the old one (each submitted field takes its submitted value, the others and the id and creator are kept), participants are untouched and exactly one update log names the submitted fields |
| EventViews.EventStore.DeleteEvent | events/views.py:96-124 | a missing event is not found; only its creator may delete it; an event with participants is refused with nothing changed; otherwise the event and its log entries go, and one delete log without event reference keeps the captured id and name |
| EventViews.EventStore.JoinEvent | events/views.py:137-186 | refused, with nothing changed, when anonymous, not found, not open, full or already joined; otherwise exactly one row for (event, actor) is added with one join log; counts change only for that event, and capacity and pair uniqueness still hold |
| EventViews.EventStore.LeaveEvent | events/views.py:189-220 | refused, with nothing changed, when anonymous or when the event or the actor's row is missing; otherwise exactly that row is deleted, other rows are untouched, and one leave log keeps the deleted row's id |
| EventViews.EventStore.ParticipantList | events/views.py:127-134 | only the event's creator gets the list, which holds exactly the event's rows, as many as its participant count |
| EventViews.EventStore.EventLogList | events/views.py:223-230 | only the event's creator gets the list, which holds exactly the entries referring to the event, newest first |

## Left out

- Transactions and concurrency: each endpoint is one atomic method. The race between join's "already joined" check and its insert (events/views.py:158-169) is not modelled.
- HTTP responses, status codes and message texts: endpoints return a `Result` whose error names the refusal.
- Request body validation by the event serializer: field types are Dafny types, and invalid bodies are not modelled.
- `AdminEventLogsView` (events/views.py:233-245): its gate is framework permission plumbing. It uses the framework's `IsAdminUser`, which tests `is_staff`, a flag inherited from `AbstractUser` (users/models.py:6) and tied to no role. The view also compares the role with `'admin'` (events/views.py:240). As written, every signed-in user who is not staff is refused, including users with role ADMIN.
- Text search and ordering by the framework's SearchFilter and OrderingFilter (events/views.py:16-20), and the log listing's query filters on `event`, `user` and `action` and its client-chosen ordering (logs/views.py:10-13), and the default `-date` and `-joined_at` row orderings: lists keep store order. Only the log's newest-first order is modelled.
- Date parsing: `fromisoformat` and its silent fallback on a malformed date (events/views.py:33-39) are out. `ListEvents` takes the parsed date, or `None`, as a parameter.
- `timezone.now()` is a parameter. `created_at`, `updated_at` and `joined_at` are not stored.
- Log timestamps are the store's clock counter, not wall-clock time.
- The second `EventLog` record (logs/models.py), which the log listing queries: the model has one log, shaped after events/models.py, that the endpoints write and the listing reads. Its upper-case actions and STATUS_CHANGE are not modelled.
- Deleting a user (cascading to events and participants, and nulling log authors) is not part of this model: no endpoint of the core deletes users.
- users/views.py (registration, tokens), the serializers, the URL files and the admin screens are not part of this model.
- Logs cannot be edited or deleted except by the delete cascade: the store has no such method.
- EventViews.EventStore.UpdateEvent: the store invariant `WithinCapacity` is preserved only when the new capacity still covers the participants. The code lets an update lower the capacity below the participant count, or reopen an event beyond the creator's quota.

## Findings

| source | as written | input that shows it | evidently intended | confidence | as-written member | corrected member |
|---|---|---|---|---|---|---|
| events/permissions.py:20-24 | the create permission compares the role with "admin" and "creator" | any signed-in user, e.g. role ADMIN (stored as "ADMIN") or EVENT_CREATOR | allow signed-in administrators and event creators | high, not executed | EventPermissions.IsAdminOrCreatorAsWritten | EventPermissions.IsAdminOrCreator |
| events/views.py:49-57 | the quota exemption compares the role with "admin" | an administrator (role stored as "ADMIN") holding five open events is refused | exempt administrators from the five-open-events quota | high, not executed | EventViews.QuotaAsWrittenBindsAdmins | EventViews.QuotaApplies |
