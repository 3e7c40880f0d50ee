/** `aw-client-light`: ActivityWatch events and the total time per window title. */
module AwClient {
  import opened Wrappers
  import opened Calendar
  import opened Totals

  /** `EventData`. */
  datatype EventData = EventData(app: string, title: string)

  /** `Event`: an observation lasting `duration` seconds. */
  datatype Event = Event(id: int, timestamp: DateTime, duration: real, data: EventData)

  /** What the ActivityWatch server answers to a query for the events of a
      bucket between two instants. */
  type EventSource = (string, DateTime, DateTime) -> Result<seq<Event>, Error>

  /** `Error::DateFormatError`. */
  const DateFormatError: Error := Failed("Date format error")

  /** `get_events`: both bounds must be writable as RFC 3339 before the
      request is sent. */
  function GetEvents(source: EventSource, bucket: string, start: DateTime, end: DateTime): (r: Result<seq<Event>, Error>)
    ensures !Rfc3339Formattable(start) || !Rfc3339Formattable(end) ==> r == Failure(DateFormatError)
    ensures Rfc3339Formattable(start) && Rfc3339Formattable(end) ==> r == source(bucket, start, end)
  {
    if !Rfc3339Formattable(start) || !Rfc3339Formattable(end) then Failure(DateFormatError)
    else source(bucket, start, end)
  }

  function TitleOf(e: Event): Option<string> {
    Some(e.data.title)
  }

  function DurationOf(e: Event): real {
    e.duration
  }

  /** `sum_duration_by_title`: seconds spent per window title. */
  function SumDurationByTitle(events: seq<Event>): (m: map<string, real>)
    ensures forall t :: t in m ==> exists i :: 0 <= i < |events| && events[i].data.title == t
    ensures forall i :: 0 <= i < |events| ==> events[i].data.title in m
  {
    SumBy(events, TitleOf, DurationOf)
  }

  /** The sum of the durations of the events titled `t`. */
  function TitleTotal(events: seq<Event>, t: string): real {
    Total(events, TitleOf, DurationOf, t)
  }

  /** Each entry is the total duration of the events with that title. */
  lemma SumDurationIsTotal(events: seq<Event>, t: string)
    requires t in SumDurationByTitle(events)
    ensures SumDurationByTitle(events)[t] == TitleTotal(events, t)
  {
    SumByIsTotal(events, TitleOf, DurationOf, t);
  }

  /** No events, no titles. */
  lemma SumDurationEmpty()
    ensures SumDurationByTitle([]) == map[]
  {
  }

  /** One more event adds its duration to its own title and nothing else. */
  lemma SumDurationAddEvent(events: seq<Event>, e: Event)
    ensures var before := SumDurationByTitle(events);
      var after := SumDurationByTitle(events + [e]);
      && after.Keys == before.Keys + {e.data.title}
      && (forall t :: t in before && t != e.data.title ==> after[t] == before[t])
      && after[e.data.title] == (if e.data.title in before then before[e.data.title] else 0.0) + e.duration
  {
    SumBySnoc(events, e, TitleOf, DurationOf);
  }
}
