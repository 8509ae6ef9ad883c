/** src/core/calendar/GoogleCalendarAPI.ts as the calendar facade sees it:
    an access token, and four calendar requests that are refused without one
    and may otherwise fail. The network is not modelled: each request takes
    the remote reply as a parameter (None when the fetch failed or the
    response was not ok), and a ghost log records the requests that were
    actually sent. */
module GoogleCalendar {
  import opened Wrappers
  import opened CalendarTypes

  datatype Error =
    | NotAuthenticated   // "Not authenticated"
    | AuthFailed         // popup blocked, cancelled or timed out
    | NotFound           // "Event not found" (raised by the facade)
    | RemoteFailure      // a failed fetch or a response that is not ok

  /** How the sign-in popup ends. */
  datatype AuthEnding =
    | PopupBlocked            // the window could not be opened
    | TokenMessage(token: string)
    | PopupClosed             // closed without a token message
    | TimedOut                // five minutes passed

  /** A request that reached the remote calendar. */
  datatype Request =
    | ListRequest(timeMin: int, timeMax: int)
    | CreateRequest(draft: Draft)
    | UpdateRequest(eventId: string, updates: Patch)
    | DeleteRequest(eventId: string)

  /** The fields of a remote event item that parseGoogleEvent reads; `start`
      and `end` are the instants of `dateTime` or, failing that, `date`. */
  datatype Item = Item(
    id: string,
    summary: Option<string>,
    description: Option<string>,
    start: int,
    end: int,
    location: Option<string>,
    attendees: Option<seq<string>>,
    colorId: Option<string>,
    status: Option<Status>)

  /** `parseGoogleEvent`: a missing or empty summary becomes "Untitled", a
      missing attendee list becomes empty, a missing status "confirmed", and
      the source is always google. */
  function ParseItem(item: Item): (e: Event)
    ensures e.id == item.id && e.start == item.start && e.end == item.end
    ensures e.source == Google
    ensures e.title != ""
    ensures item.summary.Some? && item.summary.value != "" ==> e.title == item.summary.value
    ensures item.summary.None? || item.summary.value == "" ==> e.title == "Untitled"
    ensures e.description == item.description && e.location == item.location && e.color == item.colorId
    ensures item.attendees.Some? ==> e.attendees == item.attendees
    ensures item.attendees.None? ==> e.attendees == Some([])
    ensures e.status == (if item.status.Some? then item.status.value else Confirmed)
    ensures e.reminder.None? && e.recurring.None?
  {
    Event(
      item.id,
      if item.summary.Some? && item.summary.value != "" then item.summary.value else "Untitled",
      item.description,
      item.start,
      item.end,
      item.location,
      Some(item.attendees.GetOr([])),
      None,
      item.colorId,
      None,
      Google,
      item.status.GetOr(Confirmed))
  }

  function ParseItems(items: seq<Item>): (es: seq<Event>)
    ensures |es| == |items|
    ensures forall i :: 0 <= i < |es| ==> es[i] == ParseItem(items[i])
  {
    seq(|items|, i requires 0 <= i < |items| => ParseItem(items[i]))
  }

  class GoogleCalendarApi {
    /** `accessToken`, null until a token message arrives. */
    var accessToken: Option<string>
    ghost var requests: seq<Request>

    constructor()
      ensures accessToken == None && requests == []
    {
      accessToken := None;
      requests := [];
    }

    /** `isAuthenticated`: `!!this.accessToken`, so an empty token does not count. */
    predicate IsAuthenticated()
      reads this
    {
      accessToken.Some? && accessToken.value != ""
    }

    /** `authenticate`: opens the sign-in popup and settles on the first of
        the ways it can end. A token message stores its token, even an empty
        one, and succeeds; a closed popup succeeds only if a token is already
        held; a blocked popup and the five-minute timeout fail. */
    method Authenticate(ending: AuthEnding) returns (r: Outcome<Error>)
      modifies this
      ensures accessToken == (if ending.TokenMessage? then Some(ending.token) else old(accessToken))
      ensures ending.TokenMessage? ==> r == Pass
      ensures ending.PopupClosed? ==> r == (if old(IsAuthenticated()) then Pass else Fail(AuthFailed))
      ensures ending.PopupBlocked? || ending.TimedOut? ==> r == Fail(AuthFailed)
      ensures requests == old(requests)
    {
      match ending {
        case PopupBlocked =>
          r := Fail(AuthFailed);
        case TokenMessage(token) =>
          accessToken := Some(token);
          r := Pass;
        case PopupClosed =>
          r := if IsAuthenticated() then Pass else Fail(AuthFailed);
        case TimedOut =>
          r := Fail(AuthFailed);
      }
    }

    /** `signOut`. */
    method SignOut()
      modifies this
      ensures accessToken == None && requests == old(requests)
    {
      accessToken := None;
    }

    /** `getEvents(timeMin, timeMax)`; `reply` holds the returned items. */
    method GetEvents(timeMin: int, timeMax: int, reply: Option<seq<Item>>) returns (r: Result<seq<Event>, Error>)
      modifies this
      ensures accessToken == old(accessToken)
      ensures !IsAuthenticated() ==> r == Failure(NotAuthenticated) && requests == old(requests)
      ensures IsAuthenticated() ==> requests == old(requests) + [ListRequest(timeMin, timeMax)]
      ensures IsAuthenticated() && reply.None? ==> r == Failure(RemoteFailure)
      ensures IsAuthenticated() && reply.Some? ==> r == Success(ParseItems(reply.value))
    {
      if !IsAuthenticated() {
        return Failure(NotAuthenticated);
      }
      requests := requests + [ListRequest(timeMin, timeMax)];
      if reply.None? {
        return Failure(RemoteFailure);
      }
      r := Success(ParseItems(reply.value));
    }

    /** `createEvent(event)`; `reply` is the created item. */
    method CreateEvent(draft: Draft, reply: Option<Item>) returns (r: Result<Event, Error>)
      modifies this
      ensures accessToken == old(accessToken)
      ensures !IsAuthenticated() ==> r == Failure(NotAuthenticated) && requests == old(requests)
      ensures IsAuthenticated() ==> requests == old(requests) + [CreateRequest(draft)]
      ensures IsAuthenticated() && reply.None? ==> r == Failure(RemoteFailure)
      ensures IsAuthenticated() && reply.Some? ==> r == Success(ParseItem(reply.value))
    {
      if !IsAuthenticated() {
        return Failure(NotAuthenticated);
      }
      requests := requests + [CreateRequest(draft)];
      if reply.None? {
        return Failure(RemoteFailure);
      }
      r := Success(ParseItem(reply.value));
    }

    /** `updateEvent(eventId, updates)`; `reply` is the updated item. */
    method UpdateEvent(eventId: string, updates: Patch, reply: Option<Item>) returns (r: Result<Event, Error>)
      modifies this
      ensures accessToken == old(accessToken)
      ensures !IsAuthenticated() ==> r == Failure(NotAuthenticated) && requests == old(requests)
      ensures IsAuthenticated() ==> requests == old(requests) + [UpdateRequest(eventId, updates)]
      ensures IsAuthenticated() && reply.None? ==> r == Failure(RemoteFailure)
      ensures IsAuthenticated() && reply.Some? ==> r == Success(ParseItem(reply.value))
    {
      if !IsAuthenticated() {
        return Failure(NotAuthenticated);
      }
      requests := requests + [UpdateRequest(eventId, updates)];
      if reply.None? {
        return Failure(RemoteFailure);
      }
      r := Success(ParseItem(reply.value));
    }

    /** `deleteEvent(eventId)`; `ok` is whether the response was ok. */
    method DeleteEvent(eventId: string, ok: bool) returns (r: Outcome<Error>)
      modifies this
      ensures accessToken == old(accessToken)
      ensures !IsAuthenticated() ==> r == Fail(NotAuthenticated) && requests == old(requests)
      ensures IsAuthenticated() ==> requests == old(requests) + [DeleteRequest(eventId)]
      ensures IsAuthenticated() ==> r == (if ok then Pass else Fail(RemoteFailure))
    {
      if !IsAuthenticated() {
        return Fail(NotAuthenticated);
      }
      requests := requests + [DeleteRequest(eventId)];
      r := if ok then Pass else Fail(RemoteFailure);
    }
  }
}
