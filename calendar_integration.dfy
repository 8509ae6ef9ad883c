/** src/core/calendar/CalendarIntegration.ts: the event store. Events live in
    an insertion-ordered map from id to event; writes go to Google first when
    the adapter is authenticated (and, for updates and deletes, the event came
    from Google), and every change is followed by a save to local storage,
    recorded here only as a ghost counter. */
module CalendarIntegration {
  import opened Wrappers
  import opened Sequences
  import opened OrderedMaps
  import opened CalendarTypes
  import opened GoogleCalendar
  import SmartScheduler

  /** The window `syncWithGoogle` fetches: thirty days from "now". */
  const SyncWindow: int := 30 * MsPerDay

  /** Every entry is stored under its own event's id. */
  ghost predicate KeyedById(m: OrderedMap<Event>) {
    forall k :: k in m.entries ==> m.entries[k].id == k
  }

  /** The ids of the events in `es`. */
  ghost function Ids(es: seq<Event>): set<string> {
    set i | 0 <= i < |es| :: es[i].id
  }

  /** `events.forEach(e => map.set(e.id, e))`: each event is stored under its
      id, a later event replacing an earlier one with the same id. */
  function UpsertAll(m: OrderedMap<Event>, es: seq<Event>): (r: OrderedMap<Event>)
    requires m.Valid()
    ensures r.Valid()
  {
    if es == [] then m
    else
      var e := es[|es| - 1];
      UpsertAll(m, es[..|es| - 1]).Set(e.id, e)
  }

  lemma IdsSnoc(es: seq<Event>)
    requires es != []
    ensures Ids(es) == Ids(es[..|es| - 1]) + {es[|es| - 1].id}
  {
    var init := es[..|es| - 1];
    forall x | x in Ids(es) ensures x in Ids(init) + {es[|es| - 1].id} {
      var i :| 0 <= i < |es| && es[i].id == x;
      if i < |init| {
        assert init[i] == es[i];
      }
    }
    forall x | x in Ids(init) ensures x in Ids(es) {
      var i :| 0 <= i < |init| && init[i].id == x;
      assert es[i] == init[i];
    }
    assert es[|es| - 1].id in Ids(es);
  }

  /** An upsert never removes an entry nor reorders the keys, and adds exactly
      the fetched ids. */
  lemma {:induction false} UpsertAllKeys(m: OrderedMap<Event>, es: seq<Event>)
    requires m.Valid()
    ensures m.keys <= UpsertAll(m, es).keys
    ensures UpsertAll(m, es).entries.Keys == m.entries.Keys + Ids(es)
  {
    if es != [] {
      UpsertAllKeys(m, es[..|es| - 1]);
      IdsSnoc(es);
    } else {
      assert Ids(es) == {};
    }
  }

  /** The entries of ids that were not fetched are left as they were. */
  lemma {:induction false} UpsertAllUntouched(m: OrderedMap<Event>, es: seq<Event>, k: string)
    requires m.Valid()
    requires k in m.entries && k !in Ids(es)
    ensures k in UpsertAll(m, es).entries && UpsertAll(m, es).entries[k] == m.entries[k]
  {
    if es != [] {
      IdsSnoc(es);
      UpsertAllUntouched(m, es[..|es| - 1], k);
    }
  }

  /** A fetched event that no later fetched event shares its id with is what
      the store holds under that id. */
  lemma {:induction false} UpsertAllLast(m: OrderedMap<Event>, es: seq<Event>, i: nat)
    requires m.Valid()
    requires i < |es|
    requires forall j :: i < j < |es| ==> es[j].id != es[i].id
    ensures es[i].id in UpsertAll(m, es).entries && UpsertAll(m, es).entries[es[i].id] == es[i]
  {
    var init := es[..|es| - 1];
    if i < |init| {
      assert init[i] == es[i];
      assert es[|es| - 1].id != es[i].id;
      forall j | i < j < |init| ensures init[j].id != init[i].id {
        assert init[j] == es[j];
      }
      UpsertAllLast(m, init, i);
    }
  }

  /** An upsert keeps every entry under its own event's id. */
  lemma {:induction false} UpsertAllKeyed(m: OrderedMap<Event>, es: seq<Event>)
    requires m.Valid() && KeyedById(m)
    ensures KeyedById(UpsertAll(m, es))
  {
    if es != [] {
      UpsertAllKeyed(m, es[..|es| - 1]);
    }
  }

  /** The filter argument of `getEvents`; an absent filter is all None. */
  datatype EventFilter = EventFilter(startDate: Option<int>, endDate: Option<int>, source: Option<Source>)

  const AllEvents: EventFilter := EventFilter(None, None, None)

  /** `e.start >= startDate`, `e.end <= endDate` and `e.source === source`, for
      each bound that is given. */
  predicate Matches(f: EventFilter, e: Event) {
    && (f.startDate.Some? ==> e.start >= f.startDate.value)
    && (f.endDate.Some? ==> e.end <= f.endDate.value)
    && (f.source.Some? ==> e.source == f.source.value)
  }

  function MatchesOf(f: EventFilter): Event -> bool {
    e => Matches(f, e)
  }

  /** The filter `getSmartSuggestions` and `findOptimalTimeSlot` use: events
      that start no earlier than "now" and end within seven days. */
  function HorizonFilter(clock: Clock): EventFilter {
    EventFilter(Some(clock.now), Some(clock.now + SmartScheduler.Week), None)
  }

  class CalendarIntegration {
    var localEvents: OrderedMap<Event>
    const google: GoogleCalendarApi
    /** How many times the store was written back to local storage. */
    ghost var saves: nat

    ghost predicate Valid()
      reads this
    {
      localEvents.Valid()
    }

    /** The constructor with `loadLocalEvents`: `stored` is the parsed array
        from local storage, empty when nothing was stored or it did not parse. */
    constructor(stored: seq<Event>)
      ensures Valid()
      ensures localEvents == UpsertAll(Empty(), stored)
      ensures fresh(google) && google.accessToken == None && google.requests == []
      ensures saves == 0
    {
      google := new GoogleCalendarApi();
      var events: OrderedMap<Event> := Empty();
      var i := 0;
      while i < |stored|
        invariant 0 <= i <= |stored|
        invariant events == UpsertAll(Empty(), stored[..i])
      {
        assert stored[..i + 1][..i] == stored[..i];
        events := events.Set(stored[i].id, stored[i]);
        i := i + 1;
      }
      assert stored[..i] == stored;
      localEvents := events;
      saves := 0;
    }

    /** `syncWithGoogle`; `reply` is the remote answer to the list request. */
    method SyncWithGoogle(clock: Clock, reply: Option<seq<Item>>) returns (r: Outcome<Error>)
      requires Valid()
      modifies this, google
      ensures Valid()
      ensures google.accessToken == old(google.accessToken)
      ensures !old(google.IsAuthenticated()) ==>
                r == Fail(NotAuthenticated) && google.requests == old(google.requests)
      ensures old(google.IsAuthenticated()) ==>
                google.requests == old(google.requests) + [ListRequest(clock.now, clock.now + SyncWindow)]
      ensures r.Pass? <==> old(google.IsAuthenticated()) && reply.Some?
      ensures r.Pass? ==> localEvents == UpsertAll(old(localEvents), ParseItems(reply.value))
                          && saves == old(saves) + 1
      ensures r.Fail? ==> localEvents == old(localEvents) && saves == old(saves)
      ensures old(localEvents.keys) <= localEvents.keys
      ensures old(KeyedById(localEvents)) ==> KeyedById(localEvents)
    {
      if !google.IsAuthenticated() {
        return Fail(NotAuthenticated);
      }
      var future := clock.now + SyncWindow;
      var fetched := google.GetEvents(clock.now, future, reply);
      if fetched.Failure? {
        return Fail(fetched.error);
      }
      StoreAll(fetched.value);
      UpsertAllKeys(old(localEvents), fetched.value);
      if old(KeyedById(localEvents)) {
        UpsertAllKeyed(old(localEvents), fetched.value);
      }
      saves := saves + 1;
      r := Pass;
    }

    /** `events.forEach(e => this.localEvents.set(e.id, e))`. */
    method StoreAll(events: seq<Event>)
      requires Valid()
      modifies this
      ensures Valid()
      ensures localEvents == UpsertAll(old(localEvents), events)
      ensures saves == old(saves)
    {
      var i := 0;
      while i < |events|
        invariant 0 <= i <= |events|
        invariant localEvents == UpsertAll(old(localEvents), events[..i])
        invariant localEvents.Valid()
        invariant saves == old(saves)
      {
        assert events[..i + 1][..i] == events[..i];
        localEvents := localEvents.Set(events[i].id, events[i]);
        i := i + 1;
      }
      assert events[..i] == events;
    }

    /** `authenticate`: sign in through the adapter, then sync; a failed
        sign-in skips the sync. */
    method Authenticate(clock: Clock, ending: AuthEnding, reply: Option<seq<Item>>) returns (r: Outcome<Error>)
      requires Valid()
      modifies this, google
      ensures Valid()
      ensures google.accessToken == (if ending.TokenMessage? then Some(ending.token) else old(google.accessToken))
      ensures r.Pass? <==> (ending.TokenMessage? || ending.PopupClosed?) && google.IsAuthenticated() && reply.Some?
      ensures r.Pass? ==> localEvents == UpsertAll(old(localEvents), ParseItems(reply.value))
      ensures r.Fail? ==> localEvents == old(localEvents)
      ensures r.Pass? ==> saves == old(saves) + 1
      ensures r.Fail? ==> saves == old(saves)
      ensures ending.PopupBlocked? || ending.TimedOut? ==> google.requests == old(google.requests)
      ensures (ending.TokenMessage? || ending.PopupClosed?) && google.IsAuthenticated() ==>
                google.requests == old(google.requests) + [ListRequest(clock.now, clock.now + SyncWindow)]
      ensures !((ending.TokenMessage? || ending.PopupClosed?) && google.IsAuthenticated()) ==>
                google.requests == old(google.requests)
    {
      r := google.Authenticate(ending);
      if r.Fail? {
        return;
      }
      r := SyncWithGoogle(clock, reply);
    }

    /** The event `createEvent` stores when not signed in: the draft's fields
        with the generated id, source local and status confirmed (the draft's
        own status is overridden). */
    static function LocalEvent(draft: Draft, id: string): (e: Event)
      ensures e.id == id && e.source == Local && e.status == Confirmed
      ensures e.title == draft.title && e.description == draft.description
      ensures e.start == draft.start && e.end == draft.end
      ensures e.location == draft.location && e.attendees == draft.attendees
      ensures e.reminder == draft.reminder && e.color == draft.color && e.recurring == draft.recurring
    {
      Event(id, draft.title, draft.description, draft.start, draft.end, draft.location,
            draft.attendees, draft.reminder, draft.color, draft.recurring, Local, Confirmed)
    }

    /** `createEvent`. `freshId` is what `generateId` returns, assumed unused;
        `reply` is the remote answer when signed in. */
    method CreateEvent(draft: Draft, freshId: string, reply: Option<Item>) returns (r: Result<Event, Error>)
      requires Valid()
      requires freshId !in localEvents.entries
      modifies this, google
      ensures Valid()
      ensures google.accessToken == old(google.accessToken)
      ensures !old(google.IsAuthenticated()) ==>
                && r == Success(LocalEvent(draft, freshId))
                && localEvents.entries == old(localEvents.entries)[freshId := r.value]
                && localEvents.keys == old(localEvents.keys) + [freshId]
                && google.requests == old(google.requests)
      ensures old(google.IsAuthenticated()) ==>
                && google.requests == old(google.requests) + [CreateRequest(draft)]
                && (reply.None? ==> r == Failure(RemoteFailure))
                && (reply.Some? ==> r == Success(ParseItem(reply.value)))
      ensures r.Success? ==> localEvents == old(localEvents).Set(r.value.id, r.value) && saves == old(saves) + 1
      ensures r.Failure? ==> localEvents == old(localEvents) && saves == old(saves)
      ensures old(KeyedById(localEvents)) ==> KeyedById(localEvents)
    {
      if google.IsAuthenticated() {
        r := google.CreateEvent(draft, reply);
        if r.Failure? {
          return;
        }
        localEvents := localEvents.Set(r.value.id, r.value);
        saves := saves + 1;
        return;
      }
      var localEvent := LocalEvent(draft, freshId);
      localEvents := localEvents.Set(localEvent.id, localEvent);
      saves := saves + 1;
      r := Success(localEvent);
    }

    /** `updateEvent`; `reply` is the remote answer for a Google event while
        signed in. The local path stores `{ ...event, ...updates }`, which may
        replace the event's `id` and `source` while the entry stays under
        `eventId`. */
    method UpdateEvent(eventId: string, updates: Patch, reply: Option<Item>) returns (r: Result<Event, Error>)
      requires Valid()
      modifies this, google
      ensures Valid()
      ensures google.accessToken == old(google.accessToken)
      ensures eventId !in old(localEvents.entries) ==>
                r == Failure(NotFound) && localEvents == old(localEvents) && google.requests == old(google.requests)
      ensures eventId in old(localEvents.entries) && !(old(localEvents.entries[eventId].source) == Google && old(google.IsAuthenticated())) ==>
                && r == Success(Merge(old(localEvents.entries[eventId]), updates))
                && google.requests == old(google.requests)
      ensures eventId in old(localEvents.entries) && old(localEvents.entries[eventId].source) == Google && old(google.IsAuthenticated()) ==>
                && google.requests == old(google.requests) + [UpdateRequest(eventId, updates)]
                && r == (if reply.Some? then Success(ParseItem(reply.value)) else Failure(RemoteFailure))
      ensures r.Success? ==> localEvents.entries == old(localEvents.entries)[eventId := r.value]
                             && localEvents.keys == old(localEvents.keys)
                             && saves == old(saves) + 1
      ensures r.Failure? ==> localEvents == old(localEvents) && saves == old(saves)
    {
      var found := localEvents.Get(eventId);
      if found.None? {
        return Failure(NotFound);
      }
      var event := found.value;
      if event.source == Google && google.IsAuthenticated() {
        r := google.UpdateEvent(eventId, updates, reply);
        if r.Failure? {
          return;
        }
        localEvents := localEvents.Set(eventId, r.value);
        saves := saves + 1;
        return;
      }
      var updated := Merge(event, updates);
      localEvents := localEvents.Set(eventId, updated);
      saves := saves + 1;
      r := Success(updated);
    }

    /** `deleteEvent`; `ok` is whether the remote delete succeeded, consulted
        only for a Google event while signed in. */
    method DeleteEvent(eventId: string, ok: bool) returns (r: Outcome<Error>)
      requires Valid()
      modifies this, google
      ensures Valid()
      ensures google.accessToken == old(google.accessToken)
      ensures eventId !in old(localEvents.entries) ==>
                r == Pass && localEvents == old(localEvents) && google.requests == old(google.requests) && saves == old(saves)
      ensures eventId in old(localEvents.entries) && old(localEvents.entries[eventId].source) == Google && old(google.IsAuthenticated()) ==>
                google.requests == old(google.requests) + [DeleteRequest(eventId)] && (r.Pass? <==> ok)
      ensures eventId in old(localEvents.entries) && !(old(localEvents.entries[eventId].source) == Google && old(google.IsAuthenticated())) ==>
                r == Pass && google.requests == old(google.requests)
      ensures r.Pass? ==> localEvents == old(localEvents).Delete(eventId)
      ensures r.Pass? && eventId in old(localEvents.entries) ==> saves == old(saves) + 1
      ensures r.Fail? ==> localEvents == old(localEvents) && saves == old(saves) && eventId in localEvents.entries
      ensures old(KeyedById(localEvents)) ==> KeyedById(localEvents)
    {
      var found := localEvents.Get(eventId);
      if found.None? {
        return Pass;
      }
      if found.value.source == Google && google.IsAuthenticated() {
        r := google.DeleteEvent(eventId, ok);
        if r.Fail? {
          return;
        }
      }
      localEvents := localEvents.Delete(eventId);
      saves := saves + 1;
      r := Pass;
    }

    /** `getEvents(filter)`: the stored events that match, sorted by start; events
        with equal starts stay in insertion order. */
    function GetEvents(filter: EventFilter): (r: seq<Event>)
      requires Valid()
      reads this
      ensures multiset(r) == multiset(Filter(localEvents.Values(), MatchesOf(filter)))
      ensures forall i :: 0 <= i < |r| ==> Matches(filter, r[i]) && r[i] in localEvents.Values()
    {
      var matching := Filter(localEvents.Values(), MatchesOf(filter));
      var r := SortBy(matching, StartOf);
      assert forall i :: 0 <= i < |r| ==> r[i] in matching by {
        forall i | 0 <= i < |r| ensures r[i] in matching {
          assert r[i] in multiset(r);
        }
      }
      r
    }

    /** The events handed to the scheduler: those inside the next seven days. */
    function HorizonEvents(clock: Clock): (r: seq<Event>)
      requires Valid()
      reads this
      ensures forall i :: 0 <= i < |r| ==> clock.now <= r[i].start && r[i].end <= clock.now + SmartScheduler.Week
    {
      GetEvents(HorizonFilter(clock))
    }

    /** `getSmartSuggestions`; `generated` stands for the text generator's answer. */
    method GetSmartSuggestions(clock: Clock, tasks: seq<SmartScheduler.Task>, u: SmartScheduler.UserPreferences,
                               generated: seq<Suggestion>)
      returns (suggestions: seq<Suggestion>)
      requires Valid()
      ensures suggestions == SmartScheduler.SmartSuggestions(clock, tasks, HorizonEvents(clock), u, generated)
    {
      suggestions := SmartScheduler.GenerateSmartSuggestions(clock, tasks, HorizonEvents(clock), u, generated);
    }

    /** `findOptimalTimeSlot`. */
    method FindOptimalTimeSlot(clock: Clock, duration: int, preferences: SmartScheduler.Preferences)
      returns (slots: seq<TimeSlot>)
      requires Valid()
      ensures slots == SmartScheduler.FindSlots(clock, duration, HorizonEvents(clock), preferences)
    {
      slots := SmartScheduler.FindOptimalTimeSlot(clock, duration, HorizonEvents(clock), preferences);
    }
  }

  /** getEvents is sorted by start, lists every stored event that matches
      the filter, and nothing else. */
  lemma GetEventsExact(c: CalendarIntegration, filter: EventFilter, e: Event)
    requires c.Valid()
    ensures SortedBy(c.GetEvents(filter), StartOf)
    ensures e in c.GetEvents(filter) <==> e in c.localEvents.Values() && Matches(filter, e)
  {
    var vs := c.localEvents.Values();
    var matching := Filter(vs, MatchesOf(filter));
    SortBySorted(matching, StartOf);
    if e in vs && Matches(filter, e) {
      var i :| 0 <= i < |vs| && vs[i] == e;
      assert MatchesOf(filter)(vs[i]);
      assert e in multiset(matching);
      assert e in multiset(c.GetEvents(filter));
    }
  }
}
