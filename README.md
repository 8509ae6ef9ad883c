# MANA assistant core, modelled in Dafny

This project models the logic of the MANA personal assistant: its calendar
scheduling core, its voice command dispatcher and its daily quota of free
questions. Four pieces are covered:

- **Free-slot scheduler and suggestion ranker** (`SmartScheduler`, in
  `smart_scheduler.dfy`). `findOptimalTimeSlot` sorts a copy of the events by
  start. It walks a cursor from "now" across the gaps between them and emits
  a slot of the requested duration wherever a gap is long enough and the
  cursor passes `meetsPreferences`. At most five slots are returned.
  `generateSmartSuggestions` places each high-priority pending task at its
  first free slot. It then appends the suggestions of an external text
  generator and sorts stably by priority rank.
  - The loops are `method`s proved equal to specification functions (`FindSlots`,
    `SmartSuggestions`).
  - The lemmas state the bounds, ordering, clearance and preference
    properties of those functions.
- **Event store facade** (`CalendarIntegration`, in `calendar_integration.dfy`).
  A class holding an insertion-ordered map from id to event. Its operations:
  - sync-upsert from Google
  - create, update and delete with write-through to the Google adapter
  - filtered, sorted listing
  - the two scheduler entry points, which only see the next seven days

  The Google adapter (`GoogleCalendar`, `google_calendar.dfy`) is a class with
  the access token. Its four requests are refused without a token. The
  remote reply of each request is a parameter, and a ghost log records what
  was sent.
- **Voice command dispatcher** (`CommandProcessor`, in
  `command_processor.dfy`). A table of handlers in registration order.
  `process` lower-cases and trims the sentence, then picks the first command
  that begins it. It hands the remaining words to the command's handler, or
  answers with a chat message holding the original text. The JavaScript
  string operations it relies on (`toLowerCase`, `trim`, `split(/\s+/)`,
  `filter(Boolean)`, `join`) are in `js_strings.dfy`.
- **Daily free quota** (`AiLimits`, in `ai_limits.dfy`). Two stored values,
  the date of the last reset and a count. `canAsk`, `registerAsk` and
  `getRemaining` are methods on a class with those two fields. Each is proved
  equal to a state-transition function, and the lemmas are about those
  functions.

Shared pieces:
- `ordered_map.dfy`: a JavaScript `Map` as a dictionary plus its key order.
- `sequences.dfy`: `filter`, a stable sort by integer key, and a flat-map.
- `calendar_types.dfy`: the records of `types.ts`.
- `wrappers.dfy`: `Option`, `Result` and `Outcome`.

Time is integer milliseconds since the epoch. "Now" and the local time-zone
offset are passed in as a `Clock`. Durations, buffers and hours are whole
numbers. The source compares `(start - cursor) / 60000 >= duration + buffer`
on JavaScript numbers. For whole minutes and instants in milliseconds, and
leaving floating-point rounding aside, this is the same as comparing
`start - cursor >= (duration + buffer) * 60000` in integers, which is what
the model does.

Two behaviours of the source worth knowing:
- A task's duration is `estimatedDuration || 60`
  (src/core/calendar/SmartScheduler.ts:68), so an estimate of 0 also becomes
  60 minutes.
- A create or update whose remote write fails stores nothing and saves
  nothing (src/core/calendar/CalendarIntegration.ts:31-35, 46-50): the
  adapter's error propagates before the store is touched.

## Model

| member | source | states |
|---|---|---|
| CalendarTypes.HourOf | src/core/calendar/SmartScheduler.ts:54 | the local hour of an instant is in 0..23 |
| CalendarTypes.DayOf | src/core/calendar/SmartScheduler.ts:55 | the local day of week is in 0..6 |
| CalendarTypes.Rank | src/core/calendar/SmartScheduler.ts:78 | the rank table: high is exactly rank 0, low exactly rank 2, medium in between |
| CalendarTypes.MergeKeepsAbsentFields | src/core/calendar/CalendarIntegration.ts:52 | for each of the twelve fields, the merge takes the patch's value when the patch carries the field and keeps the event's otherwise (so `id` and `source` can change); the empty patch is the identity; merging twice is merging once |
| Sequences.Filter | src/core/calendar/SmartScheduler.ts:65 | the result keeps only elements satisfying the predicate, keeps every one that does, and is a sub-multiset of the input |
| Sequences.FilterCount | src/core/calendar/SmartScheduler.ts:65 | filtering keeps each passing element exactly as often as it occurs and drops every other one |
| Sequences.FilterAppend | src/core/calendar/SmartScheduler.ts:65 | filtering a concatenation is the concatenation of the filtered parts, so the input order is kept |
| Sequences.FilterAll | src/core/voice/CommandProcessor.ts:33 | a filter every element passes returns its input unchanged |
| Sequences.FlatMapAtMostOne | src/core/calendar/SmartScheduler.ts:65-73 | a loop that pushes at most one result per element (one exactly when the element passes a test) produces, in order, the one result of each passing element, and no more results than elements |
| Sequences.SortBySorted | src/core/calendar/SmartScheduler.ts:23 | the sort's result is ordered by key |
| Sequences.SortByStable | src/core/calendar/SmartScheduler.ts:78 | elements with the same key keep their relative order |
| Sequences.SortBy | src/core/calendar/CalendarIntegration.ts:73 | the sort is a permutation of its input |
| OrderedMaps.OrderedMap.Get | src/core/calendar/CalendarIntegration.ts:44 | `get` finds a value exactly for a present key, and it is that key's value |
| OrderedMaps.OrderedMap.Set | src/core/calendar/CalendarIntegration.ts:26 | `set` stores the value under the key and changes no other entry; a new key goes last, a present key keeps its place; the key order stays duplicate-free |
| OrderedMaps.OrderedMap.Delete | src/core/calendar/CalendarIntegration.ts:62 | `delete` removes exactly that key's entry, drops it from the key order (one key fewer when it was present) and keeps the other keys in their order; a no-op on an absent key; the map stays well formed |
| OrderedMaps.WithoutAppend | src/core/calendar/CalendarIntegration.ts:62 | removing a key from a concatenated key list removes it from each part, so the remaining keys keep their order |
| OrderedMaps.WithoutOnce | src/core/calendar/CalendarIntegration.ts:62 | removing a key that is listed once leaves the key list one shorter |
| OrderedMaps.ValuesAreEntries | src/core/calendar/CalendarIntegration.ts:67 | `values()` lists exactly the stored values |
| SmartScheduler.GapSlots | src/core/calendar/SmartScheduler.ts:27-39 | at most one slot per event, each available, exactly `duration` long, and at a start that meets the preferences |
| SmartScheduler.AllSlots | src/core/calendar/SmartScheduler.ts:27-48 | the same shape for every slot of the scan, the trailing slot included |
| SmartScheduler.FindSlots | src/core/calendar/SmartScheduler.ts:50 | at most five slots, the first ones the scan found: exactly five when at least five were found, and all of them when there were five or fewer; each available, `duration` minutes long, meeting the preferences |
| SmartScheduler.WalkGaps | src/core/calendar/SmartScheduler.ts:25-39 | the loop over the sorted events emits exactly the gap slots and leaves the cursor at the last event's end plus the buffer |
| SmartScheduler.FindOptimalTimeSlot | src/core/calendar/SmartScheduler.ts:10-51 | the imperative scan returns exactly `FindSlots` |
| SmartScheduler.GapSlotsEndEarly | src/core/calendar/SmartScheduler.ts:30-38 | a gap slot ends, with the buffer, no later than every following event starts |
| SmartScheduler.GapSlotsOrdered | src/core/calendar/SmartScheduler.ts:27-39 | for sorted well-formed events, a positive duration and a non-negative buffer, gap slots start strictly later one after another |
| SmartScheduler.AllSlotsIncreasing | src/core/calendar/SmartScheduler.ts:23-48 | starts increase strictly over the whole scan, trailing slot included |
| SmartScheduler.SlotStartsIncreasing | src/core/calendar/SmartScheduler.ts:23-50 | the returned slots start strictly later one after another |
| SmartScheduler.SortedWellFormed | src/core/calendar/SmartScheduler.ts:23 | sorting keeps `start <= end` for every event |
| SmartScheduler.SortedSeparatedEndsOrdered | src/core/calendar/SmartScheduler.ts:23 | sorted by start, separated events also end in order |
| SmartScheduler.GapSlotsClear | src/core/calendar/SmartScheduler.ts:30-38 | every gap slot keeps the buffer away from every event |
| SmartScheduler.AllSlotsClear | src/core/calendar/SmartScheduler.ts:27-48 | every slot of the scan keeps the buffer away from every event |
| SmartScheduler.SlotsAvoidEvents | src/core/calendar/SmartScheduler.ts:23-50 | for separated events, no returned slot comes closer than the buffer to any input event |
| SmartScheduler.SlotStartsAtCursor | src/core/calendar/SmartScheduler.ts:33-38 | every slot starts at "now" or at some event's end plus the buffer: a gap that fails the preferences is forfeited, never shifted |
| SmartScheduler.GapSlotsAtCursor | src/core/calendar/SmartScheduler.ts:25-38 | each gap slot starts at the cursor of some earlier step |
| SmartScheduler.SlotsRespectPreferences | src/core/calendar/SmartScheduler.ts:53-61 | no returned slot starts on a weekend day when weekends are avoided, and each starts inside `[start, end)` of the preferred hours when they are given |
| SmartScheduler.TrailingGapIgnoresBuffer | src/core/calendar/SmartScheduler.ts:41-48 | with no events, the gap up to the seven-day horizon yields a slot at "now" whenever the duration fits, whatever the buffer |
| SmartScheduler.GapNeedsBuffer | src/core/calendar/SmartScheduler.ts:30-32 | a gap before an event that is exactly `duration` long yields no slot when the buffer is positive |
| SmartScheduler.HalfHourSlots | src/core/calendar/SmartScheduler.ts:22-50 | meetings 10:00-10:30 and 11:00-12:00 given out of order, "now" 09:00, 30 minutes: slots at 09:00, 10:30 and 12:00 |
| SmartScheduler.PreferredHoursSlot | src/core/calendar/SmartScheduler.ts:53-61 | the same day, 45 minutes, preferred hours 9 to 10: only the 09:00 slot |
| SmartScheduler.TaskDuration | src/core/calendar/SmartScheduler.ts:68 | a task's duration is its estimate when non-zero and 60 otherwise, never 0 |
| SmartScheduler.FromGenerator | src/core/calendar/SmartScheduler.ts:88 | each generated suggestion is kept with its time set to "now" and its duration to 30 |
| SmartScheduler.GenerateSmartSuggestions | src/core/calendar/SmartScheduler.ts:63-79 | the loop and sort return exactly `SmartSuggestions`: ordered by rank, and a permutation of the task placements followed by the generated suggestions |
| SmartScheduler.SuggestionsRanked | src/core/calendar/SmartScheduler.ts:78 | no medium suggestion precedes a high one and no low one precedes a medium or high one |
| SmartScheduler.SuggestionsStable | src/core/calendar/SmartScheduler.ts:76-78 | within one priority, task suggestions come first in task order, then generated ones in their order |
| SmartScheduler.PlacementsFromFirstSlots | src/core/calendar/SmartScheduler.ts:67-72 | every deterministic suggestion is some urgent task's first-slot suggestion |
| SmartScheduler.FirstSlotsPlaced | src/core/calendar/SmartScheduler.ts:67-72 | every urgent task with a free slot gets its first-slot suggestion |
| SmartScheduler.PlacementsAreFirstSlots | src/core/calendar/SmartScheduler.ts:65-73 | the deterministic suggestions are exactly the first-slot suggestions of the tasks that have a slot |
| SmartScheduler.PlacementsInTaskOrder | src/core/calendar/SmartScheduler.ts:65-73 | the deterministic suggestions are, in task order, one first-slot suggestion for each urgent task that has a free slot and none for any other; so there are never more of them than tasks |
| SmartScheduler.PlacementsHighPriority | src/core/calendar/SmartScheduler.ts:71 | every deterministic suggestion has priority high and the fixed reason |
| GoogleCalendar.ParseItem | src/core/calendar/GoogleCalendarAPI.ts:128-141 | id, times, description, location and colour are copied; a missing or empty summary becomes "Untitled"; missing attendees become an empty list; status defaults to confirmed; the source is google; no reminder or recurrence |
| GoogleCalendar.ParseItems | src/core/calendar/GoogleCalendarAPI.ts:77 | the items are parsed one by one, in order |
| GoogleCalendar.GoogleCalendarApi.constructor | src/core/calendar/GoogleCalendarAPI.ts:4-11 | a new adapter holds no token and has sent nothing |
| GoogleCalendar.GoogleCalendarApi.Authenticate | src/core/calendar/GoogleCalendarAPI.ts:13-53 | a token message stores the token and succeeds; a closed popup succeeds only with a token already held; a blocked popup or the timeout fails |
| GoogleCalendar.GoogleCalendarApi.SignOut | src/core/calendar/GoogleCalendarAPI.ts:57 | the token is dropped |
| GoogleCalendar.GoogleCalendarApi.GetEvents | src/core/calendar/GoogleCalendarAPI.ts:65-78 | refused and nothing sent without a token; otherwise the list request is sent and its reply parsed, or the request fails |
| GoogleCalendar.GoogleCalendarApi.CreateEvent | src/core/calendar/GoogleCalendarAPI.ts:80-100 | refused and nothing sent without a token; otherwise the request is sent and the created item parsed, or it fails |
| GoogleCalendar.GoogleCalendarApi.UpdateEvent | src/core/calendar/GoogleCalendarAPI.ts:102-120 | the same for the update request |
| GoogleCalendar.GoogleCalendarApi.DeleteEvent | src/core/calendar/GoogleCalendarAPI.ts:122-126 | refused and nothing sent without a token; otherwise the request is sent and succeeds exactly when the response is ok |
| CalendarIntegration.UpsertAll | src/core/calendar/CalendarIntegration.ts:26 | storing fetched events one by one keeps the map well formed |
| CalendarIntegration.UpsertAllKeys | src/core/calendar/CalendarIntegration.ts:26 | an upsert never removes or reorders a key, and adds exactly the fetched ids |
| CalendarIntegration.UpsertAllUntouched | src/core/calendar/CalendarIntegration.ts:26 | an entry whose id was not fetched is left as it was |
| CalendarIntegration.UpsertAllLast | src/core/calendar/CalendarIntegration.ts:26 | under a fetched id the store holds the last fetched event with that id |
| CalendarIntegration.UpsertAllKeyed | src/core/calendar/CalendarIntegration.ts:8 | after an upsert every entry is still stored under its own event's id |
| CalendarIntegration.CalendarIntegration.constructor | src/core/calendar/CalendarIntegration.ts:88-99 | the store starts as the stored events upserted by id, with a fresh unauthenticated adapter |
| CalendarIntegration.CalendarIntegration.SyncWithGoogle | src/core/calendar/CalendarIntegration.ts:21-28 | fails before fetching when not signed in; otherwise requests the next thirty days; on success the store is the old store with every fetched event upserted by id, no key is lost, and it is saved; on failure nothing changes |
| CalendarIntegration.CalendarIntegration.StoreAll | src/core/calendar/CalendarIntegration.ts:26 | the `forEach` loop leaves exactly the upsert of the events |
| CalendarIntegration.CalendarIntegration.Authenticate | src/core/calendar/CalendarIntegration.ts:16-19 | succeeds exactly when sign-in succeeds with a non-empty token and the sync fetch succeeds; then the store holds the upserted events and is saved once, otherwise it is unchanged and not saved; the sync's list request is sent exactly when sign-in succeeded with a non-empty token, and nothing is sent otherwise |
| CalendarIntegration.CalendarIntegration.LocalEvent | src/core/calendar/CalendarIntegration.ts:37 | a local event has the fresh id, source local, status confirmed, and every other field from the draft |
| CalendarIntegration.CalendarIntegration.CreateEvent | src/core/calendar/CalendarIntegration.ts:30-41 | when not signed in, exactly one new entry under the fresh id, appended last, others unchanged; when signed in, the created remote event is stored under its own id or nothing changes; every entry stays under its event's id |
| CalendarIntegration.CalendarIntegration.UpdateEvent | src/core/calendar/CalendarIntegration.ts:43-56 | an unknown id fails with the store unchanged; a local event, or a google one while signed out, becomes the shallow merge; a google event while signed in becomes the remote answer; only that entry changes |
| CalendarIntegration.CalendarIntegration.DeleteEvent | src/core/calendar/CalendarIntegration.ts:58-64 | an unknown id is a no-op; a google event while signed in is deleted remotely first, and if that fails the entry is still there and nothing is saved; on success exactly that entry goes and the store is saved once |
| CalendarIntegration.CalendarIntegration.GetEvents | src/core/calendar/CalendarIntegration.ts:66-74 | the result is a permutation of the matching stored events |
| CalendarIntegration.GetEventsExact | src/core/calendar/CalendarIntegration.ts:66-74 | the listing is sorted by start and holds an event exactly when it is stored and matches every given bound and the source |
| CalendarIntegration.CalendarIntegration.HorizonEvents | src/core/calendar/CalendarIntegration.ts:77 | the scheduler is only given events inside `[now, now + 7 days]` |
| CalendarIntegration.CalendarIntegration.GetSmartSuggestions | src/core/calendar/CalendarIntegration.ts:76-79 | the suggestions are the ranker's over the events of the next seven days |
| CalendarIntegration.CalendarIntegration.FindOptimalTimeSlot | src/core/calendar/CalendarIntegration.ts:81-84 | the slots are the scan's over the events of the next seven days |
| JsStrings.LowerChar | src/core/voice/CommandProcessor.ts:21 | an ASCII capital becomes its small letter, every other character is unchanged, and no capital remains |
| JsStrings.ToLower | src/core/voice/CommandProcessor.ts:25 | lower-casing works character by character and keeps the length |
| JsStrings.ToLowerIdentity | src/core/voice/CommandProcessor.ts:21 | lower-casing leaves a string without capitals as it is |
| JsStrings.ToLowerIdempotent | src/core/voice/CommandProcessor.ts:21 | lower-casing twice is lower-casing once |
| JsStrings.TrimStart | src/core/voice/CommandProcessor.ts:25 | drops exactly the leading whitespace run |
| JsStrings.TrimEnd | src/core/voice/CommandProcessor.ts:31 | drops exactly the trailing whitespace run |
| JsStrings.Trim | src/core/voice/CommandProcessor.ts:25 | the result neither starts nor ends with whitespace |
| JsStrings.TakeWord | src/core/voice/CommandProcessor.ts:32 | the longest whitespace-free prefix |
| JsStrings.Split | src/core/voice/CommandProcessor.ts:32 | at least one piece, none containing whitespace |
| JsStrings.SplitVisible | src/core/voice/CommandProcessor.ts:32 | splitting loses exactly the whitespace characters |
| JsStrings.VisibleTrim | src/core/voice/CommandProcessor.ts:31 | trimming removes only whitespace |
| JsStrings.ConcatNonEmpty | src/core/voice/CommandProcessor.ts:33 | dropping empty pieces changes nothing else |
| JsStrings.Words | src/core/voice/CommandProcessor.ts:29-33 | no parameter is empty or contains whitespace |
| JsStrings.WordsVisible | src/core/voice/CommandProcessor.ts:29-33 | the parameters hold every non-whitespace character of the remainder, in order, and nothing else |
| JsStrings.TakeWordPrefix | src/core/voice/CommandProcessor.ts:32 | a whitespace-free word followed by nothing or by whitespace is exactly what is taken as the first piece |
| JsStrings.SplitJoin | src/core/voice/CommandProcessor.ts:32 | non-empty, whitespace-free words joined by single spaces split back into the same words |
| JsStrings.WordsJoin | src/core/voice/CommandProcessor.ts:29-33 | the parameters of a remainder made of words joined by single spaces are those words, so the split falls exactly at the whitespace |
| CommandProcessor.FirstMatch | src/core/voice/CommandProcessor.ts:27-28 | finds the first key that begins the text: it does, and no earlier key does; none is found exactly when no key begins it |
| CommandProcessor.FirstMatchIs | src/core/voice/CommandProcessor.ts:27-28 | the first key that begins the text is the one chosen |
| CommandProcessor.CommandProcessor.constructor | src/core/voice/CommandProcessor.ts:4-6 | a new dispatcher holds the nine default commands in order, each under its own handler |
| CommandProcessor.CommandProcessor.RegisterDefaultCommands | src/core/voice/CommandProcessor.ts:8-18 | the nine registrations leave the default table |
| CommandProcessor.CommandProcessor.Register | src/core/voice/CommandProcessor.ts:20-22 | the handler is set under the lower-cased command |
| CommandProcessor.RegisterEffect | src/core/voice/CommandProcessor.ts:20-22 | registering changes only that entry; a new command goes last and a re-registered one keeps its place, so no key is listed twice |
| CommandProcessor.CommandProcessor.Process | src/core/voice/CommandProcessor.ts:24-39 | the loop returns exactly `Dispatch`: the first matching command's handler on the remaining words, or chat |
| CommandProcessor.CommandProcessor.GetAvailableCommands | src/core/voice/CommandProcessor.ts:41 | lists exactly the registered commands, each once, in registration order (the map's key order, fixed by `RegisterEffect` and `DefaultTableKeys`) |
| CommandProcessor.DefaultCommandLower | src/core/voice/CommandProcessor.ts:9-17 | the default command words are stored as written |
| CommandProcessor.DefaultCommandsDistinct | src/core/voice/CommandProcessor.ts:9-17 | the nine default commands are distinct |
| CommandProcessor.DefaultTableKeys | src/core/voice/CommandProcessor.ts:8-18 | after `n` registrations the keys are the first `n` default commands, in order |
| CommandProcessor.DefaultTableEntries | src/core/voice/CommandProcessor.ts:8-18 | after `n` registrations each of those commands maps to its own handler |
| CommandProcessor.DefaultTableIsDefault | src/core/voice/CommandProcessor.ts:8-18 | the nine registrations give the default table |
| CommandProcessor.DefaultAddTask | src/core/voice/CommandProcessor.ts:9 | with the default table, "افزودن کار …" adds a task titled by the remaining words joined with single spaces |
| CommandProcessor.CompleteTaskMatched | src/core/voice/CommandProcessor.ts:11 | "انجام شد" is the first default command that begins a text starting with it |
| CommandProcessor.DefaultCompleteTask | src/core/voice/CommandProcessor.ts:11 | with the default table, "انجام شد …" completes the task named by the first remaining word, none without one |
| CommandProcessor.FallsBackToChat | src/core/voice/CommandProcessor.ts:38 | with no matching command the answer is chat carrying the original, un-normalised text |
| AiLimits.AfterCanAsk | services/core/ai_limits.ts:4-15 | a pro user or the same day changes nothing; otherwise the date becomes today and a new day resets the count to 0 |
| AiLimits.AfterRegister | services/core/ai_limits.ts:17-28 | a pro user changes nothing; otherwise the date becomes today and the count goes up by one on the same day, or to 1 on a new day |
| AiLimits.RemainingOf | services/core/ai_limits.ts:30-35 | unlimited exactly for a pro user; otherwise never negative, at least `limit - count`, and exactly that when positive |
| AiLimits.QuotaStorage.constructor | services/core/ai_limits.ts:7-8 | empty storage: no date and a count that reads as 0 |
| AiLimits.QuotaStorage.CanAsk | services/core/ai_limits.ts:4-15 | `canAsk` answers `Allows` and leaves the stored pair `AfterCanAsk` |
| AiLimits.QuotaStorage.RegisterAsk | services/core/ai_limits.ts:17-28 | `registerAsk` leaves the stored pair `AfterRegister` |
| AiLimits.QuotaStorage.GetRemaining | services/core/ai_limits.ts:30-35 | `getRemaining` answers `RemainingOf` of the stored pair |
| AiLimits.ProIsUnmetered | services/core/ai_limits.ts:5 | a pro user may always ask, neither call touches storage, and the remaining count is unlimited |
| AiLimits.CanAskAnswers | services/core/ai_limits.ts:9-14 | on a new day `canAsk` answers `0 < limit`, on the same day `count < limit` |
| AiLimits.RemainingIgnoresDate | services/core/ai_limits.ts:30-35 | the remaining count is `max(0, limit - count)` whatever date is stored |
| AiLimits.StaleRemaining | services/core/ai_limits.ts:30-35 | yesterday's exhausted count shows 0 remaining although `canAsk` allows a question today |
| AiLimits.RegisteredTimesCount | services/core/ai_limits.ts:22-27 | from another day, `n > 0` registrations leave today's date and count `n` |
| AiLimits.QuotaRunsOut | services/core/ai_limits.ts:4-28 | from another day, after `n` registrations `canAsk` answers `n < limit`, so after `limit` of them it refuses |

## Left out

- SmartScheduler.SlotsAvoidEvents: requires positive-length, pairwise disjoint events, because a zero-length event sharing its start with a longer one moves the cursor back (the cursor becomes `event.end + buffer` with no maximum), and a slot can then overlap the longer event.
- SmartScheduler.FindOptimalTimeSlot: the source reads the clock once per call; `generateSmartSuggestions` calls it once per task and reads the clock again for the generated suggestions. The model uses one `Clock` for the whole call.
- CalendarTypes.HourOf: `getHours` and `getDay` use a fixed offset from UTC; daylight-saving changes and time-zone rules are not modelled.
- JsStrings.LowerChar: lower-casing covers the ASCII capitals only. The Unicode case mappings are not modelled. The Persian command words have no case, so they are unaffected.
- JsStrings.IsSpace: strings are sequences of code points, not UTF-16 code units.
- CalendarIntegration.CalendarIntegration.CreateEvent: `generateId` (clock plus `Math.random`) becomes a `freshId` parameter with the precondition that it is not already a key.
- CalendarIntegration.CalendarIntegration.UpdateEvent: a patch cannot carry `undefined` for a required field (`title`, `start`, `end`, `source`, `status`). An optional field can be present as `undefined`.
- CommandProcessor.CommandProcessor.RegisterDefaultCommands: the source makes nine `register` calls in a row. The model loops over the same nine commands and handlers in the same order. `DefaultTableIsDefault` proves the resulting table.
- CommandProcessor handlers are `async`. They are modelled as the functions their promises resolve to, and a rejected handler promise is not modelled.
- AiLimits.QuotaStorage.CanAsk: the stored count is an integer. A stored string that `Number` turns into `NaN` is not modelled.
- The HTTP and OAuth details of the Google adapter are not modelled. This covers the URLs, headers, the request bodies built from an event or patch, `maxResults` 250, `singleEvents`/`orderBy`, and the popup's polling interval. Each remote reply is a parameter, and `None` or `ok == false` stands for a failed fetch or a response that is not ok.
- Parsing a Google item's `dateTime`/`date` strings into instants is not modelled, and neither is an unparseable date (an `Invalid Date`). An `Item` carries the two instants already parsed.
- GoogleCalendar.ParseItem: remote attendee objects are given as their e-mail addresses, and `status` is one of the three known values.
- SmartScheduler.FindSlots: durations, buffers, task estimates and preferred hours are whole numbers. The fractional values a JavaScript `number` allows (a buffer of 7.5 minutes, preferred hours from 9.5) and floating-point rounding are not modelled.
- `getAISuggestions` (prompting a text generator and extracting a JSON array) becomes the `generated` parameter. Its entries are taken to have valid priorities.
- Loading and saving the event store through local storage and JSON are not modelled. Loading is the constructor's `stored` parameter, and every save is counted in the ghost field `saves`.
- Errors are returned as `Result`/`Outcome` values rather than thrown.
- Concurrency between `await`s is not modelled: each operation runs to completion.
- The rest of the repository is not part of this model. That covers the React components, the voice recognition and synthesis wrappers, the text-generation service clients, the AI manager wiring and the sign-in service.
