/** The records of src/core/calendar/types.ts, with instants as integer
    milliseconds since the Unix epoch (what `Date.getTime()` returns). */
module CalendarTypes {
  import opened Wrappers

  const MsPerMinute: int := 60 * 1000
  const MsPerHour: int := 60 * MsPerMinute
  const MsPerDay: int := 24 * MsPerHour

  /** The platform clock: the current instant (`new Date()`) and the local
      time zone's offset from UTC, which `getHours`/`getDay` apply. */
  datatype Clock = Clock(now: int, utcOffset: int)

  /** `Date.prototype.getHours`: the local hour of day of instant `t`. */
  function HourOf(clock: Clock, t: int): (h: int)
    ensures 0 <= h < 24
  {
    ((t + clock.utcOffset) / MsPerHour) % 24
  }

  /** `Date.prototype.getDay`: the local day of week of `t`, 0 for Sunday.
      1 January 1970 was a Thursday (day 4). */
  function DayOf(clock: Clock, t: int): (d: int)
    ensures 0 <= d < 7
  {
    ((t + clock.utcOffset) / MsPerDay + 4) % 7
  }

  datatype Source = Google | Local | Outlook
  datatype Status = Confirmed | Tentative | Cancelled
  datatype Frequency = Daily | Weekly | Monthly | Yearly

  datatype RecurringPattern = RecurringPattern(
    frequency: Frequency,
    interval: int,
    endDate: Option<int>,
    daysOfWeek: Option<seq<int>>)

  /** `CalendarEvent`. Optional properties are Options; `recurring` may also be
      `null` in the source, which is folded into None. */
  datatype Event = Event(
    id: string,
    title: string,
    description: Option<string>,
    start: int,
    end: int,
    location: Option<string>,
    attendees: Option<seq<string>>,
    reminder: Option<int>,
    color: Option<string>,
    recurring: Option<RecurringPattern>,
    source: Source,
    status: Status)

  function StartOf(e: Event): int { e.start }

  /** `Omit<CalendarEvent, 'id' | 'source'>`: what createEvent is given. */
  datatype Draft = Draft(
    title: string,
    description: Option<string>,
    start: int,
    end: int,
    location: Option<string>,
    attendees: Option<seq<string>>,
    reminder: Option<int>,
    color: Option<string>,
    recurring: Option<RecurringPattern>,
    status: Status)

  /** `Partial<CalendarEvent>`: every property may be present (Some) or absent
      (None). An optional property may be present with value `undefined`,
      which is Some(None). */
  datatype Patch = Patch(
    id: Option<string>,
    title: Option<string>,
    description: Option<Option<string>>,
    start: Option<int>,
    end: Option<int>,
    location: Option<Option<string>>,
    attendees: Option<Option<seq<string>>>,
    reminder: Option<Option<int>>,
    color: Option<Option<string>>,
    recurring: Option<Option<RecurringPattern>>,
    source: Option<Source>,
    status: Option<Status>)

  /** The object spread `{ ...e, ...p }`: each property present in `p` wins,
      every other property keeps its value from `e`. Nothing stops `p` from
      carrying `id` or `source`, so the merge can change both. */
  function Merge(e: Event, p: Patch): Event {
    Event(
      p.id.GetOr(e.id),
      p.title.GetOr(e.title),
      p.description.GetOr(e.description),
      p.start.GetOr(e.start),
      p.end.GetOr(e.end),
      p.location.GetOr(e.location),
      p.attendees.GetOr(e.attendees),
      p.reminder.GetOr(e.reminder),
      p.color.GetOr(e.color),
      p.recurring.GetOr(e.recurring),
      p.source.GetOr(e.source),
      p.status.GetOr(e.status))
  }

  /** The empty patch `{}`. */
  const NoChanges: Patch :=
    Patch(None, None, None, None, None, None, None, None, None, None, None, None)

  /** A merge is the identity on the properties the patch leaves out, and
      takes the patch's value on each one it carries: in particular an `id` or
      `source` in the patch replaces the event's own. */
  lemma MergeKeepsAbsentFields(e: Event, p: Patch)
    ensures p == NoChanges ==> Merge(e, p) == e
    ensures p.id.None? ==> Merge(e, p).id == e.id
    ensures p.id.Some? ==> Merge(e, p).id == p.id.value
    ensures p.source.None? ==> Merge(e, p).source == e.source
    ensures p.source.Some? ==> Merge(e, p).source == p.source.value
    ensures Merge(e, p).title == (if p.title.Some? then p.title.value else e.title)
    ensures Merge(e, p).description == (if p.description.Some? then p.description.value else e.description)
    ensures Merge(e, p).start == (if p.start.Some? then p.start.value else e.start)
    ensures Merge(e, p).end == (if p.end.Some? then p.end.value else e.end)
    ensures Merge(e, p).location == (if p.location.Some? then p.location.value else e.location)
    ensures Merge(e, p).attendees == (if p.attendees.Some? then p.attendees.value else e.attendees)
    ensures Merge(e, p).reminder == (if p.reminder.Some? then p.reminder.value else e.reminder)
    ensures Merge(e, p).color == (if p.color.Some? then p.color.value else e.color)
    ensures Merge(e, p).recurring == (if p.recurring.Some? then p.recurring.value else e.recurring)
    ensures Merge(e, p).status == (if p.status.Some? then p.status.value else e.status)
    ensures Merge(Merge(e, p), p) == Merge(e, p)
  {
  }

  datatype TimeSlot = TimeSlot(start: int, end: int, available: bool)

  datatype Priority = High | Medium | Low

  /** The rank table `{ high: 0, medium: 1, low: 2 }` the ranker sorts by. */
  function Rank(p: Priority): (r: int)
    ensures 0 <= r <= 2
    ensures (r == 0) == (p == High) && (r == 2) == (p == Low)
  {
    match p
    case High => 0
    case Medium => 1
    case Low => 2
  }

  /** `SmartScheduleSuggestion`; `suggestedTime` is an instant and
      `duration` is in minutes. */
  datatype Suggestion = Suggestion(
    title: string,
    suggestedTime: int,
    duration: int,
    reason: string,
    priority: Priority)

  function RankOf(s: Suggestion): int { Rank(s.priority) }
}
