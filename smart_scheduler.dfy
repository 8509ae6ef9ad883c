/** src/core/calendar/SmartScheduler.ts: the free-slot finder and the
    suggestion ranker.

    The scan is specified by functions over the events sorted by start
    (CursorAt, GapSlot, GapSlots, TrailingSlot, AllSlots, FindSlots), the
    imperative scan FindOptimalTimeSlot is proved to compute FindSlots, and
    the lemmas state what FindSlots promises: slot shape, the cap of five,
    strictly increasing starts, clearance from every event, and starts that
    are never shifted away from the cursor. */
module SmartScheduler {
  import opened Wrappers
  import opened Sequences
  import opened CalendarTypes

  /** The scan horizon `endOfWeek`: seven days after "now". */
  const Week: int := 7 * MsPerDay

  /** `slots.slice(0, 5)`. */
  const MaxSlots: int := 5

  datatype HourRange = HourRange(start: int, end: int)

  /** The `preferences` argument; a missing `avoidWeekends` is false. */
  datatype Preferences = Preferences(
    preferredHours: Option<HourRange>,
    avoidWeekends: bool,
    bufferTime: Option<int>)

  /** The default argument `{}`. */
  const NoPreferences: Preferences := Preferences(None, false, None)

  /** `preferences.bufferTime || 0`, in minutes. */
  function BufferOf(p: Preferences): int {
    p.bufferTime.GetOr(0)
  }

  /** `meetsPreferences`: a candidate start is rejected on a weekend day when
      weekends are avoided, and outside `[start, end)` of the preferred hours
      when those are given. */
  predicate MeetsPreferences(clock: Clock, t: int, p: Preferences) {
    var hours := HourOf(clock, t);
    var day := DayOf(clock, t);
    if p.avoidWeekends && (day == 0 || day == 6) then false
    else if p.preferredHours.Some?
         && (hours < p.preferredHours.value.start || hours >= p.preferredHours.value.end) then false
    else true
  }

  // ---------------------------------------------------------------------------
  // The gap scan, as functions of the events sorted by start. Durations `dMs`
  // and `bMs` are the requested duration and the buffer converted to
  // milliseconds. The source compares `(start - cursor) / 60000 >= duration +
  // buffer` on JavaScript numbers; for whole minutes and instants in
  // milliseconds, leaving floating-point rounding aside, that is
  // `start - cursor >= dMs + bMs`.
  // ---------------------------------------------------------------------------

  /** The cursor `currentTime` once the first `i` sorted events are passed:
      "now" at first, then the end of the last passed event plus the buffer. */
  function CursorAt(s: seq<Event>, now: int, bMs: int, i: nat): int
    requires i <= |s|
  {
    if i == 0 then now else s[i - 1].end + bMs
  }

  /** The slot (if any) emitted in the gap before sorted event `i`. */
  function GapSlot(clock: Clock, s: seq<Event>, i: nat, dMs: int, bMs: int, p: Preferences): seq<TimeSlot>
    requires i < |s|
  {
    var c := CursorAt(s, clock.now, bMs, i);
    if s[i].start - c >= dMs + bMs && MeetsPreferences(clock, c, p) then [TimeSlot(c, c + dMs, true)]
    else []
  }

  /** The slots emitted in the gaps before the first `n` sorted events. */
  function GapSlots(clock: Clock, s: seq<Event>, n: nat, dMs: int, bMs: int, p: Preferences): (r: seq<TimeSlot>)
    requires n <= |s|
    ensures |r| <= n
    ensures forall k :: 0 <= k < |r| ==>
              r[k].available && r[k].end - r[k].start == dMs && MeetsPreferences(clock, r[k].start, p)
  {
    if n == 0 then [] else GapSlots(clock, s, n - 1, dMs, bMs, p) + GapSlot(clock, s, n - 1, dMs, bMs, p)
  }

  /** The slot (if any) in the gap between cursor `c` and the horizon; this
      gap needs only `dMs`, without the buffer. */
  function TrailingSlot(clock: Clock, c: int, dMs: int, p: Preferences): seq<TimeSlot> {
    var endOfWeek := clock.now + Week;
    if c < endOfWeek && endOfWeek - c >= dMs && MeetsPreferences(clock, c, p) then [TimeSlot(c, c + dMs, true)]
    else []
  }

  /** Every slot the scan emits, before the cap of five. */
  function AllSlots(clock: Clock, duration: int, events: seq<Event>, p: Preferences): (r: seq<TimeSlot>)
    ensures forall k :: 0 <= k < |r| ==>
              && r[k].available
              && r[k].end - r[k].start == duration * MsPerMinute
              && MeetsPreferences(clock, r[k].start, p)
  {
    var s := SortBy(events, StartOf);
    var dMs := duration * MsPerMinute;
    var bMs := BufferOf(p) * MsPerMinute;
    var gaps := GapSlots(clock, s, |s|, dMs, bMs, p);
    var tail := TrailingSlot(clock, CursorAt(s, clock.now, bMs, |s|), dMs, p);
    assert forall k :: |gaps| <= k < |gaps + tail| ==> (gaps + tail)[k] == tail[k - |gaps|];
    gaps + tail
  }

  /** What `findOptimalTimeSlot(duration, events, preferences)` resolves to
      when "now" is `clock.now`. */
  function FindSlots(clock: Clock, duration: int, events: seq<Event>, p: Preferences): (r: seq<TimeSlot>)
    ensures |r| <= MaxSlots
    ensures r <= AllSlots(clock, duration, events, p)
    ensures |AllSlots(clock, duration, events, p)| >= MaxSlots ==> |r| == MaxSlots
    ensures |AllSlots(clock, duration, events, p)| <= MaxSlots ==> r == AllSlots(clock, duration, events, p)
    ensures forall k :: 0 <= k < |r| ==>
              && r[k].available
              && r[k].end - r[k].start == duration * MsPerMinute
              && MeetsPreferences(clock, r[k].start, p)
  {
    var all := AllSlots(clock, duration, events, p);
    if |all| <= MaxSlots then all else all[..MaxSlots]
  }

  /** The loop of `findOptimalTimeSlot` over the sorted events: a slot in
      each gap of at least duration plus buffer whose start meets the
      preferences, and the cursor left after the last event. */
  method WalkGaps(clock: Clock, sortedEvents: seq<Event>, dMs: int, bMs: int, preferences: Preferences)
    returns (found: seq<TimeSlot>, currentTime: int)
    ensures found == GapSlots(clock, sortedEvents, |sortedEvents|, dMs, bMs, preferences)
    ensures currentTime == CursorAt(sortedEvents, clock.now, bMs, |sortedEvents|)
  {
    found := [];
    currentTime := clock.now;
    var i := 0;
    while i < |sortedEvents|
      invariant 0 <= i <= |sortedEvents|
      invariant currentTime == CursorAt(sortedEvents, clock.now, bMs, i)
      invariant found == GapSlots(clock, sortedEvents, i, dMs, bMs, preferences)
    {
      var event := sortedEvents[i];
      if event.start - currentTime >= dMs + bMs {
        if MeetsPreferences(clock, currentTime, preferences) {
          found := found + [TimeSlot(currentTime, currentTime + dMs, true)];
        }
      }
      currentTime := event.end + bMs;
      i := i + 1;
    }
  }

  /** `findOptimalTimeSlot`: sorts a copy of the events, walks the cursor
      across the gaps between them, then tries the gap up to the horizon.
      The caller's sequence is a value, so it is not reordered. */
  method FindOptimalTimeSlot(clock: Clock, duration: int, events: seq<Event>, preferences: Preferences)
    returns (slots: seq<TimeSlot>)
    ensures slots == FindSlots(clock, duration, events, preferences)
  {
    var endOfWeek := clock.now + Week;
    var sortedEvents := SortBy(events, StartOf);
    var dMs := duration * MsPerMinute;
    var bMs := BufferOf(preferences) * MsPerMinute;
    var found, currentTime := WalkGaps(clock, sortedEvents, dMs, bMs, preferences);
    ghost var trailing := TrailingSlot(clock, currentTime, dMs, preferences);
    if currentTime < endOfWeek {
      if endOfWeek - currentTime >= dMs {
        if MeetsPreferences(clock, currentTime, preferences) {
          found := found + [TimeSlot(currentTime, currentTime + dMs, true)];
        }
      }
    }
    assert found == GapSlots(clock, sortedEvents, |sortedEvents|, dMs, bMs, preferences) + trailing;
    assert found == AllSlots(clock, duration, events, preferences);
    slots := if |found| <= MaxSlots then found else found[..MaxSlots];
  }

  // ---------------------------------------------------------------------------
  // Properties of the scan
  // ---------------------------------------------------------------------------

  ghost predicate StartsIncreasing(r: seq<TimeSlot>) {
    forall j, k :: 0 <= j < k < |r| ==> r[j].start < r[k].start
  }

  ghost predicate WellFormed(events: seq<Event>) {
    forall i :: 0 <= i < |events| ==> events[i].start <= events[i].end
  }

  /** Slots found before event `n - 1` end, with the buffer, no later than
      every event from `n - 1` on. */
  lemma {:induction false} GapSlotsEndEarly(clock: Clock, s: seq<Event>, n: nat, dMs: int, bMs: int, p: Preferences)
    requires n <= |s|
    requires SortedBy(s, StartOf)
    ensures forall k, m :: 0 <= k < |GapSlots(clock, s, n, dMs, bMs, p)| && n - 1 <= m < |s| ==>
              GapSlots(clock, s, n, dMs, bMs, p)[k].end + bMs <= s[m].start
  {
    if n > 0 {
      var prev := GapSlots(clock, s, n - 1, dMs, bMs, p);
      var here := GapSlot(clock, s, n - 1, dMs, bMs, p);
      GapSlotsEndEarly(clock, s, n - 1, dMs, bMs, p);
      var r := prev + here;
      assert r == GapSlots(clock, s, n, dMs, bMs, p);
      forall k, m | 0 <= k < |r| && n - 1 <= m < |s| ensures r[k].end + bMs <= s[m].start {
        assert StartOf(s[n - 1]) <= StartOf(s[m]);
        if k < |prev| {
          assert r[k] == prev[k];
        }
      }
    }
  }

  /** The starts of the slots found in the gaps increase strictly. */
  lemma {:induction false} GapSlotsOrdered(clock: Clock, s: seq<Event>, n: nat, dMs: int, bMs: int, p: Preferences)
    requires n <= |s|
    requires SortedBy(s, StartOf) && WellFormed(s)
    requires dMs > 0 && bMs >= 0
    ensures StartsIncreasing(GapSlots(clock, s, n, dMs, bMs, p))
  {
    if n > 0 {
      var prev := GapSlots(clock, s, n - 1, dMs, bMs, p);
      var here := GapSlot(clock, s, n - 1, dMs, bMs, p);
      GapSlotsOrdered(clock, s, n - 1, dMs, bMs, p);
      assert GapSlots(clock, s, n, dMs, bMs, p) == prev + here;
      if here != [] && prev != [] {
        var c := CursorAt(s, clock.now, bMs, n - 1);
        assert here[0].start == c;
        GapSlotsEndEarly(clock, s, n - 1, dMs, bMs, p);
        // every earlier slot ends before event n - 2 starts, so it starts
        // before that event's end plus the buffer, which is c
        forall k | 0 <= k < |prev| ensures prev[k].start < c {
          assert prev[k].end + bMs <= s[n - 2].start;
        }
      }
    }
  }

  /** Every slot found in the gaps starts before the final cursor. */
  lemma GapSlotsBeforeCursor(clock: Clock, s: seq<Event>, dMs: int, bMs: int, p: Preferences)
    requires SortedBy(s, StartOf) && WellFormed(s)
    requires dMs > 0 && bMs >= 0
    ensures forall k :: 0 <= k < |GapSlots(clock, s, |s|, dMs, bMs, p)| ==>
              GapSlots(clock, s, |s|, dMs, bMs, p)[k].start < CursorAt(s, clock.now, bMs, |s|)
  {
    var gaps := GapSlots(clock, s, |s|, dMs, bMs, p);
    if gaps != [] {
      GapSlotsEndEarly(clock, s, |s|, dMs, bMs, p);
      forall k | 0 <= k < |gaps| ensures gaps[k].start < CursorAt(s, clock.now, bMs, |s|) {
        assert gaps[k].end + bMs <= s[|s| - 1].start;
      }
    }
  }

  lemma ConcatIncreasing(a: seq<TimeSlot>, b: seq<TimeSlot>)
    requires StartsIncreasing(a) && StartsIncreasing(b)
    requires forall j, k :: 0 <= j < |a| && 0 <= k < |b| ==> a[j].start < b[k].start
    ensures StartsIncreasing(a + b)
  {
    var r := a + b;
    forall j, k | 0 <= j < k < |r| ensures r[j].start < r[k].start {
      if k < |a| {
        assert r[j] == a[j] && r[k] == a[k];
      } else if j < |a| {
        assert r[j] == a[j] && r[k] == b[k - |a|];
      } else {
        assert r[j] == b[j - |a|] && r[k] == b[k - |a|];
      }
    }
  }

  /** Starts are strictly increasing in the whole scan, trailing slot included. */
  lemma AllSlotsIncreasing(clock: Clock, duration: int, events: seq<Event>, p: Preferences)
    requires WellFormed(events)
    requires duration > 0 && BufferOf(p) >= 0
    ensures StartsIncreasing(AllSlots(clock, duration, events, p))
  {
    var s := SortBy(events, StartOf);
    var dMs := duration * MsPerMinute;
    var bMs := BufferOf(p) * MsPerMinute;
    var gaps := GapSlots(clock, s, |s|, dMs, bMs, p);
    var c := CursorAt(s, clock.now, bMs, |s|);
    var tail := TrailingSlot(clock, c, dMs, p);
    assert AllSlots(clock, duration, events, p) == gaps + tail;
    SortBySorted(events, StartOf);
    SortedWellFormed(events);
    GapSlotsOrdered(clock, s, |s|, dMs, bMs, p);
    GapSlotsBeforeCursor(clock, s, dMs, bMs, p);
    ConcatIncreasing(gaps, tail);
  }

  /** Sorting keeps every event, so it keeps `start <= end` for each. */
  lemma SortedWellFormed(events: seq<Event>)
    requires WellFormed(events)
    ensures WellFormed(SortBy(events, StartOf))
  {
    var s := SortBy(events, StartOf);
    forall i | 0 <= i < |s| ensures s[i].start <= s[i].end {
      assert s[i] in multiset(events);
    }
  }

  /** The returned slots start strictly later one after another. */
  lemma SlotStartsIncreasing(clock: Clock, duration: int, events: seq<Event>, p: Preferences)
    requires WellFormed(events)
    requires duration > 0 && BufferOf(p) >= 0
    ensures StartsIncreasing(FindSlots(clock, duration, events, p))
  {
    AllSlotsIncreasing(clock, duration, events, p);
  }

  /** No two distinct events overlap, and every event has positive length. */
  ghost predicate Separated(events: seq<Event>) {
    && (forall e :: e in events ==> e.start < e.end)
    && (forall a, b :: a in events && b in events && a != b ==> a.end <= b.start || b.end <= a.start)
  }

  ghost predicate EndsOrdered(s: seq<Event>) {
    forall j, k :: 0 <= j < k < |s| ==> s[j].end <= s[k].end
  }

  /** Sorted by start, separated events also end in order. */
  lemma SortedSeparatedEndsOrdered(events: seq<Event>)
    requires Separated(events)
    ensures EndsOrdered(SortBy(events, StartOf))
  {
    var s := SortBy(events, StartOf);
    SortBySorted(events, StartOf);
    forall j, k | 0 <= j < k < |s| ensures s[j].end <= s[k].end {
      assert s[j] in multiset(events) && s[k] in multiset(events);
      assert StartOf(s[j]) <= StartOf(s[k]);
    }
  }

  /** A slot clears an event by at least the buffer on one side. */
  ghost predicate Clear(slot: TimeSlot, e: Event, bMs: int) {
    slot.end + bMs <= e.start || e.end + bMs <= slot.start
  }

  lemma {:induction false} GapSlotsClear(clock: Clock, s: seq<Event>, n: nat, dMs: int, bMs: int, p: Preferences)
    requires n <= |s|
    requires SortedBy(s, StartOf) && EndsOrdered(s)
    ensures forall k, m :: 0 <= k < |GapSlots(clock, s, n, dMs, bMs, p)| && 0 <= m < |s| ==>
              Clear(GapSlots(clock, s, n, dMs, bMs, p)[k], s[m], bMs)
  {
    if n > 0 {
      GapSlotsClear(clock, s, n - 1, dMs, bMs, p);
      var here := GapSlot(clock, s, n - 1, dMs, bMs, p);
      if here != [] {
        forall m | 0 <= m < |s| ensures Clear(here[0], s[m], bMs) {
          if m >= n - 1 {
            assert StartOf(s[n - 1]) <= StartOf(s[m]) || m == n - 1;
          } else {
            assert s[m].end <= s[n - 2].end;
          }
        }
      }
    }
  }

  /** The whole scan clears every sorted event, trailing slot included. */
  lemma AllSlotsClear(clock: Clock, duration: int, events: seq<Event>, p: Preferences)
    requires Separated(events)
    ensures forall k, m :: 0 <= k < |AllSlots(clock, duration, events, p)| && 0 <= m < |SortBy(events, StartOf)| ==>
              Clear(AllSlots(clock, duration, events, p)[k], SortBy(events, StartOf)[m], BufferOf(p) * MsPerMinute)
  {
    var s := SortBy(events, StartOf);
    var dMs := duration * MsPerMinute;
    var bMs := BufferOf(p) * MsPerMinute;
    SortBySorted(events, StartOf);
    SortedSeparatedEndsOrdered(events);
    GapSlotsClear(clock, s, |s|, dMs, bMs, p);
    var gaps := GapSlots(clock, s, |s|, dMs, bMs, p);
    var tail := TrailingSlot(clock, CursorAt(s, clock.now, bMs, |s|), dMs, p);
    var all := gaps + tail;
    assert all == AllSlots(clock, duration, events, p);
    forall k, m | 0 <= k < |all| && 0 <= m < |s| ensures Clear(all[k], s[m], bMs) {
      if k < |gaps| {
        assert all[k] == gaps[k];
      } else {
        assert all[k] == tail[0];
        assert s[m].end <= s[|s| - 1].end;
      }
    }
  }

  /** Under separated events, every returned slot keeps at least the buffer
      away from every event. */
  lemma SlotsAvoidEvents(clock: Clock, duration: int, events: seq<Event>, p: Preferences)
    requires Separated(events)
    ensures forall k, e :: 0 <= k < |FindSlots(clock, duration, events, p)| && e in events ==>
              Clear(FindSlots(clock, duration, events, p)[k], e, BufferOf(p) * MsPerMinute)
  {
    var s := SortBy(events, StartOf);
    var all := AllSlots(clock, duration, events, p);
    var r := FindSlots(clock, duration, events, p);
    AllSlotsClear(clock, duration, events, p);
    forall k, e | 0 <= k < |r| && e in events ensures Clear(r[k], e, BufferOf(p) * MsPerMinute) {
      assert e in multiset(s);
      var m :| 0 <= m < |s| && s[m] == e;
      assert r[k] == all[k];
    }
  }

  /** The scan never shifts a gap: every slot starts at "now" or right after
      an event's end plus the buffer, so a gap whose start fails the
      preferences is forfeited. */
  lemma SlotStartsAtCursor(clock: Clock, duration: int, events: seq<Event>, p: Preferences)
    ensures forall k :: 0 <= k < |FindSlots(clock, duration, events, p)| ==>
              || FindSlots(clock, duration, events, p)[k].start == clock.now
              || exists e :: e in events && FindSlots(clock, duration, events, p)[k].start == e.end + BufferOf(p) * MsPerMinute
  {
    var s := SortBy(events, StartOf);
    var dMs := duration * MsPerMinute;
    var bMs := BufferOf(p) * MsPerMinute;
    var all := AllSlots(clock, duration, events, p);
    forall k | 0 <= k < |all| ensures exists i :: 0 <= i <= |s| && all[k].start == CursorAt(s, clock.now, bMs, i) {
      GapSlotsAtCursor(clock, s, |s|, dMs, bMs, p);
    }
    var r := FindSlots(clock, duration, events, p);
    forall k | 0 <= k < |r|
      ensures r[k].start == clock.now || exists e :: e in events && r[k].start == e.end + bMs
    {
      assert r[k] == all[k];
      var i :| 0 <= i <= |s| && all[k].start == CursorAt(s, clock.now, bMs, i);
      if i > 0 {
        assert s[i - 1] in multiset(events);
      }
    }
  }

  lemma {:induction false} GapSlotsAtCursor(clock: Clock, s: seq<Event>, n: nat, dMs: int, bMs: int, p: Preferences)
    requires n <= |s|
    ensures forall k :: 0 <= k < |GapSlots(clock, s, n, dMs, bMs, p)| ==>
              exists i :: 0 <= i < n && GapSlots(clock, s, n, dMs, bMs, p)[k].start == CursorAt(s, clock.now, bMs, i)
  {
    if n > 0 {
      GapSlotsAtCursor(clock, s, n - 1, dMs, bMs, p);
      var prev := GapSlots(clock, s, n - 1, dMs, bMs, p);
      var here := GapSlot(clock, s, n - 1, dMs, bMs, p);
      var r := prev + here;
      assert r == GapSlots(clock, s, n, dMs, bMs, p);
      forall k | 0 <= k < |r| ensures exists i :: 0 <= i < n && r[k].start == CursorAt(s, clock.now, bMs, i) {
        if k < |prev| {
          var i :| 0 <= i < n - 1 && prev[k].start == CursorAt(s, clock.now, bMs, i);
          assert r[k] == prev[k];
        } else {
          assert r[k].start == CursorAt(s, clock.now, bMs, n - 1);
        }
      }
      assert forall k :: 0 <= k < |GapSlots(clock, s, n, dMs, bMs, p)| ==>
              exists i :: 0 <= i < n && GapSlots(clock, s, n, dMs, bMs, p)[k].start == CursorAt(s, clock.now, bMs, i);
    } else {
      assert GapSlots(clock, s, n, dMs, bMs, p) == [];
    }
  }

  /** Every returned slot starts at a time the preferences accept: not on a
      weekend day when weekends are avoided, and inside the preferred hours
      when those are given. */
  lemma SlotsRespectPreferences(clock: Clock, duration: int, events: seq<Event>, p: Preferences)
    ensures forall k :: 0 <= k < |FindSlots(clock, duration, events, p)| ==>
              && (p.avoidWeekends ==> 1 <= DayOf(clock, FindSlots(clock, duration, events, p)[k].start) <= 5)
              && (p.preferredHours.Some? ==>
                    p.preferredHours.value.start <= HourOf(clock, FindSlots(clock, duration, events, p)[k].start)
                    < p.preferredHours.value.end)
  {
  }

  /** The gap up to the horizon needs no buffer: with no events, a start that
      meets the preferences gets a slot whenever the duration fits in the
      week, whatever the buffer. */
  lemma TrailingGapIgnoresBuffer(clock: Clock, duration: int, p: Preferences)
    requires duration * MsPerMinute <= Week
    requires MeetsPreferences(clock, clock.now, p)
    ensures FindSlots(clock, duration, [], p) == [TimeSlot(clock.now, clock.now + duration * MsPerMinute, true)]
  {
    assert SortBy([], StartOf) == [];
    assert AllSlots(clock, duration, [], p) == [TimeSlot(clock.now, clock.now + duration * MsPerMinute, true)];
  }

  /** A gap before an event needs the buffer as well: when the first event
      starts exactly `duration` minutes from now and the buffer is positive,
      no slot starts now. */
  lemma GapNeedsBuffer(clock: Clock, duration: int, e: Event, p: Preferences)
    requires duration > 0 && BufferOf(p) > 0
    requires e.start == clock.now + duration * MsPerMinute && e.start <= e.end
    ensures forall k :: 0 <= k < |FindSlots(clock, duration, [e], p)| ==>
              FindSlots(clock, duration, [e], p)[k].start != clock.now
  {
    var bMs := BufferOf(p) * MsPerMinute;
    var dMs := duration * MsPerMinute;
    assert SortBy([e], StartOf) == [e];
    assert GapSlot(clock, [e], 0, dMs, bMs, p) == [];
    assert GapSlots(clock, [e], 1, dMs, bMs, p) == [];
    var all := AllSlots(clock, duration, [e], p);
    assert all == TrailingSlot(clock, e.end + bMs, dMs, p);
    assert forall k :: 0 <= k < |all| ==> all[k].start == e.end + bMs;
  }

  // ---------------------------------------------------------------------------
  // The suggestion ranker: generateSmartSuggestions
  // ---------------------------------------------------------------------------

  /** The fields of a task (`any` in the source) that the ranker reads. */
  datatype Task = Task(title: string, priority: string, status: string, estimatedDuration: Option<int>)

  /** `userPreferences?.productiveHours`. */
  datatype UserPreferences = UserPreferences(productiveHours: Option<HourRange>)

  /** The fixed reason given to every deterministic suggestion. */
  const FitsYourPatternReason: string := "این زمان براساس الگوی کاری شما بهینه است"

  /** `t.priority === 'high' && t.status === 'pending'`. */
  predicate IsUrgent(t: Task) {
    t.priority == "high" && t.status == "pending"
  }

  /** `task.estimatedDuration || 60`: a missing or zero estimate becomes 60 minutes. */
  function TaskDuration(t: Task): (d: int)
    ensures d != 0
    ensures t.estimatedDuration.Some? && t.estimatedDuration.value != 0 ==> d == t.estimatedDuration.value
    ensures t.estimatedDuration.None? || t.estimatedDuration.value == 0 ==> d == 60
  {
    match t.estimatedDuration
    case Some(d) => if d != 0 then d else 60
    case None => 60
  }

  /** The preferences each urgent task is scheduled with. */
  function TaskPreferences(u: UserPreferences): Preferences {
    Preferences(u.productiveHours, true, Some(15))
  }

  /** Whether the scheduler finds a slot for task `t`. */
  predicate HasSlot(clock: Clock, events: seq<Event>, u: UserPreferences, t: Task) {
    |FindSlots(clock, TaskDuration(t), events, TaskPreferences(u))| > 0
  }

  /** The deterministic suggestion for `t`: its title, the start of its first
      free slot, its duration, the fixed reason and priority high. */
  function SuggestionFor(clock: Clock, events: seq<Event>, u: UserPreferences, t: Task): Suggestion
    requires HasSlot(clock, events, u, t)
  {
    var d := TaskDuration(t);
    Suggestion(t.title, FindSlots(clock, d, events, TaskPreferences(u))[0].start, d, FitsYourPatternReason, High)
  }

  /** The suggestion for one urgent task, if it has a free slot. */
  function Placement(clock: Clock, events: seq<Event>, u: UserPreferences, t: Task): seq<Suggestion> {
    if HasSlot(clock, events, u, t) then [SuggestionFor(clock, events, u, t)] else []
  }

  /** The deterministic suggestions for tasks `ts`, in task order. */
  function Placements(clock: Clock, events: seq<Event>, u: UserPreferences, ts: seq<Task>): seq<Suggestion> {
    FlatMap(ts, PlacementOf(clock, events, u))
  }

  function PlacementOf(clock: Clock, events: seq<Event>, u: UserPreferences): Task -> seq<Suggestion> {
    t => Placement(clock, events, u, t)
  }

  /** The externally generated suggestions after `{ ...s, suggestedTime: new Date(), duration: 30 }`. */
  function FromGenerator(clock: Clock, generated: seq<Suggestion>): (r: seq<Suggestion>)
    ensures |r| == |generated|
    ensures forall k :: 0 <= k < |r| ==>
              r[k] == generated[k].(suggestedTime := clock.now, duration := 30)
  {
    seq(|generated|, k requires 0 <= k < |generated| => generated[k].(suggestedTime := clock.now, duration := 30))
  }

  /** The ranker's result: deterministic then generated suggestions, stably
      sorted by priority rank. */
  function SmartSuggestions(clock: Clock, tasks: seq<Task>, events: seq<Event>, u: UserPreferences,
                            generated: seq<Suggestion>): seq<Suggestion>
  {
    SortBy(Placements(clock, events, u, Filter(tasks, IsUrgent)) + FromGenerator(clock, generated), RankOf)
  }

  /** `generateSmartSuggestions`. The text-generation step is an oracle: its
      parsed suggestions are `generated` (empty when the call or the parse failed). */
  method GenerateSmartSuggestions(clock: Clock, tasks: seq<Task>, events: seq<Event>, u: UserPreferences,
                                  generated: seq<Suggestion>)
    returns (suggestions: seq<Suggestion>)
    ensures suggestions == SmartSuggestions(clock, tasks, events, u, generated)
    ensures forall j, k :: 0 <= j < k < |suggestions| ==>
              Rank(suggestions[j].priority) <= Rank(suggestions[k].priority)
    ensures multiset(suggestions)
         == multiset(Placements(clock, events, u, Filter(tasks, IsUrgent)) + FromGenerator(clock, generated))
  {
    var placed: seq<Suggestion> := [];
    var highPriorityTasks := Filter(tasks, IsUrgent);
    var i := 0;
    while i < |highPriorityTasks|
      invariant 0 <= i <= |highPriorityTasks|
      invariant placed == Placements(clock, events, u, highPriorityTasks[..i])
    {
      var task := highPriorityTasks[i];
      var estimatedDuration := TaskDuration(task);
      var slots := FindOptimalTimeSlot(clock, estimatedDuration, events, TaskPreferences(u));
      ghost var before := placed;
      if |slots| > 0 {
        placed := placed + [Suggestion(task.title, slots[0].start, estimatedDuration, FitsYourPatternReason, High)];
      }
      assert placed == before + Placement(clock, events, u, task);
      FlatMapSnoc(highPriorityTasks, i, PlacementOf(clock, events, u));
      i := i + 1;
    }
    assert highPriorityTasks[..i] == highPriorityTasks;
    var combined := placed + FromGenerator(clock, generated);
    suggestions := SortBy(combined, RankOf);
    SortBySorted(combined, RankOf);
  }

  /** No medium suggestion precedes a high one and no low precedes a medium
      or high one. */
  lemma SuggestionsRanked(clock: Clock, tasks: seq<Task>, events: seq<Event>, u: UserPreferences,
                          generated: seq<Suggestion>)
    ensures forall j, k :: 0 <= j < k < |SmartSuggestions(clock, tasks, events, u, generated)| ==>
              Rank(SmartSuggestions(clock, tasks, events, u, generated)[j].priority)
              <= Rank(SmartSuggestions(clock, tasks, events, u, generated)[k].priority)
  {
    SortBySorted(Placements(clock, events, u, Filter(tasks, IsUrgent)) + FromGenerator(clock, generated), RankOf);
  }

  /** Within one priority the ranker keeps insertion order: deterministic
      suggestions (in task order) ahead of generated ones (in their order). */
  lemma SuggestionsStable(clock: Clock, tasks: seq<Task>, events: seq<Event>, u: UserPreferences,
                          generated: seq<Suggestion>, q: Priority)
    ensures WithKey(SmartSuggestions(clock, tasks, events, u, generated), RankOf, Rank(q))
         == WithKey(Placements(clock, events, u, Filter(tasks, IsUrgent)), RankOf, Rank(q))
            + WithKey(FromGenerator(clock, generated), RankOf, Rank(q))
  {
    var placed := Placements(clock, events, u, Filter(tasks, IsUrgent));
    var fromGen := FromGenerator(clock, generated);
    SortByStable(placed + fromGen, RankOf, Rank(q));
    WithKeyAppend(placed, fromGen, RankOf, Rank(q));
  }

  /** The first-slot suggestions of the tasks in `ts` that have a free slot. */
  ghost function FirstSlotSuggestions(clock: Clock, events: seq<Event>, u: UserPreferences, ts: seq<Task>): set<Suggestion> {
    set j | 0 <= j < |ts| && HasSlot(clock, events, u, ts[j]) :: SuggestionFor(clock, events, u, ts[j])
  }

  lemma PlacementsFromFirstSlots(clock: Clock, events: seq<Event>, u: UserPreferences, ts: seq<Task>, x: Suggestion)
    requires x in Placements(clock, events, u, ts)
    ensures x in FirstSlotSuggestions(clock, events, u, ts)
  {
    var f := PlacementOf(clock, events, u);
    var r := Placements(clock, events, u, ts);
    FlatMapSources(ts, f);
    var k :| 0 <= k < |r| && r[k] == x;
    var j :| 0 <= j < |ts| && r[k] in f(ts[j]);
    assert f(ts[j]) == Placement(clock, events, u, ts[j]);
  }

  lemma FirstSlotsPlaced(clock: Clock, events: seq<Event>, u: UserPreferences, ts: seq<Task>, x: Suggestion)
    requires x in FirstSlotSuggestions(clock, events, u, ts)
    ensures x in Placements(clock, events, u, ts)
  {
    var f := PlacementOf(clock, events, u);
    FlatMapCovers(ts, f);
    var j :| 0 <= j < |ts| && HasSlot(clock, events, u, ts[j]) && x == SuggestionFor(clock, events, u, ts[j]);
    assert x in f(ts[j]);
  }

  /** The deterministic suggestions are exactly the first-slot suggestions of
      the tasks: none is invented and no task with a free slot is skipped. */
  lemma PlacementsAreFirstSlots(clock: Clock, events: seq<Event>, u: UserPreferences, ts: seq<Task>)
    ensures forall x :: x in Placements(clock, events, u, ts) <==> x in FirstSlotSuggestions(clock, events, u, ts)
  {
    forall x | x in Placements(clock, events, u, ts) ensures x in FirstSlotSuggestions(clock, events, u, ts) {
      PlacementsFromFirstSlots(clock, events, u, ts, x);
    }
    forall x | x in FirstSlotSuggestions(clock, events, u, ts) ensures x in Placements(clock, events, u, ts) {
      FirstSlotsPlaced(clock, events, u, ts, x);
    }
  }

  function HasSlotOf(clock: Clock, events: seq<Event>, u: UserPreferences): Task -> bool {
    t => HasSlot(clock, events, u, t)
  }

  /** The first-slot suggestions of tasks that all have a free slot, in task order. */
  function FirstSlotsInOrder(clock: Clock, events: seq<Event>, u: UserPreferences, ts: seq<Task>): seq<Suggestion>
    requires forall i :: 0 <= i < |ts| ==> HasSlot(clock, events, u, ts[i])
  {
    seq(|ts|, i requires 0 <= i < |ts| => SuggestionFor(clock, events, u, ts[i]))
  }

  /** The deterministic suggestions are, in task order, the first-slot
      suggestions of exactly those tasks that have a free slot: one per such
      task and none for any other, so never more than there are tasks. */
  lemma PlacementsInTaskOrder(clock: Clock, events: seq<Event>, u: UserPreferences, ts: seq<Task>)
    ensures Placements(clock, events, u, ts)
            == FirstSlotsInOrder(clock, events, u, Filter(ts, HasSlotOf(clock, events, u)))
    ensures |Placements(clock, events, u, ts)| <= |ts|
  {
    var p, f := HasSlotOf(clock, events, u), PlacementOf(clock, events, u);
    forall t ensures |f(t)| == if p(t) then 1 else 0 {
      assert f(t) == Placement(clock, events, u, t);
    }
    FlatMapAtMostOne(ts, f, p);
    var kept := Filter(ts, p);
    var placed := Placements(clock, events, u, ts);
    assert placed == FlatMap(ts, f);
    var firsts := FirstSlotsInOrder(clock, events, u, kept);
    forall i | 0 <= i < |kept| ensures placed[i] == firsts[i] {
      assert p(kept[i]);
      assert f(kept[i]) == [SuggestionFor(clock, events, u, kept[i])];
    }
    assert placed == firsts;
  }

  /** Every deterministic suggestion has priority high and the fixed reason. */
  lemma PlacementsHighPriority(clock: Clock, events: seq<Event>, u: UserPreferences, ts: seq<Task>)
    ensures forall x :: x in Placements(clock, events, u, ts) ==> x.priority == High && x.reason == FitsYourPatternReason
  {
    PlacementsAreFirstSlots(clock, events, u, ts);
  }

  // ---------------------------------------------------------------------------
  // A worked day: "now" is 09:00 UTC on Thursday 1 January 1970, with
  // meetings at 10:00-10:30 and 11:00-12:00.
  // ---------------------------------------------------------------------------

  function Meeting(id: string, start: int, end: int): Event {
    Event(id, "meeting", None, start, end, None, None, None, None, None, Local, Confirmed)
  }

  const NineAm: Clock := Clock(9 * MsPerHour, 0)

  function Day(): seq<Event> {
    [Meeting("b", 11 * MsPerHour, 12 * MsPerHour), Meeting("a", 10 * MsPerHour, 10 * MsPerHour + 30 * MsPerMinute)]
  }

  /** Half-hour slots: one in each gap that is long enough, and one after the
      last meeting, whatever order the meetings are given in. */
  lemma HalfHourSlots()
    ensures FindSlots(NineAm, 30, Day(), NoPreferences)
         == [TimeSlot(9 * MsPerHour, 9 * MsPerHour + 30 * MsPerMinute, true),
             TimeSlot(10 * MsPerHour + 30 * MsPerMinute, 11 * MsPerHour, true),
             TimeSlot(12 * MsPerHour, 12 * MsPerHour + 30 * MsPerMinute, true)]
  {
    var s := SortBy(Day(), StartOf);
    assert s == [Day()[1], Day()[0]];
    var d := 30 * MsPerMinute;
    assert GapSlot(NineAm, s, 0, d, 0, NoPreferences) == [TimeSlot(9 * MsPerHour, 9 * MsPerHour + d, true)];
    assert GapSlot(NineAm, s, 1, d, 0, NoPreferences) == [TimeSlot(10 * MsPerHour + d, 11 * MsPerHour, true)];
    assert GapSlots(NineAm, s, 2, d, 0, NoPreferences)
        == GapSlot(NineAm, s, 0, d, 0, NoPreferences) + GapSlot(NineAm, s, 1, d, 0, NoPreferences);
    assert TrailingSlot(NineAm, 12 * MsPerHour, d, NoPreferences) == [TimeSlot(12 * MsPerHour, 12 * MsPerHour + d, true)];
    assert |AllSlots(NineAm, 30, Day(), NoPreferences)| == 3;
  }

  /** With preferred hours 09:00-10:00 a 45-minute request gets only the
      09:00 slot: the 30-minute gap before 11:00 is too short, and the gap
      after noon starts outside the preferred hours and is not shifted. */
  lemma PreferredHoursSlot()
    ensures FindSlots(NineAm, 45, Day(), Preferences(Some(HourRange(9, 10)), false, None))
         == [TimeSlot(9 * MsPerHour, 9 * MsPerHour + 45 * MsPerMinute, true)]
  {
    var s := SortBy(Day(), StartOf);
    assert s == [Day()[1], Day()[0]];
    var p := Preferences(Some(HourRange(9, 10)), false, None);
    var d := 45 * MsPerMinute;
    assert HourOf(NineAm, 9 * MsPerHour) == 9;
    assert GapSlot(NineAm, s, 0, d, 0, p) == [TimeSlot(9 * MsPerHour, 9 * MsPerHour + d, true)];
    assert GapSlot(NineAm, s, 1, d, 0, p) == [];
    assert GapSlots(NineAm, s, 2, d, 0, p) == GapSlot(NineAm, s, 0, d, 0, p) + GapSlot(NineAm, s, 1, d, 0, p);
    assert HourOf(NineAm, 12 * MsPerHour) == 12;
    assert TrailingSlot(NineAm, 12 * MsPerHour, d, p) == [];
    assert |AllSlots(NineAm, 45, Day(), p)| == 1;
  }
}
