/** `clean_tube_sync`: the YouTube videos watched long enough in the recent
    ActivityWatch window events are logged to a goal, one datapoint of value
    1 per video title, unless a datapoint with that title as its comment is
    already among the goal's newest datapoints. */
module CleanTubeSync {
  import opened Wrappers
  import opened Calendar
  import opened Text
  import opened Collections
  import opened Totals
  import opened Sorting
  import opened AwClient
  import opened Beeminder

  /** `CleanTubeConfig`, without the ActivityWatch address. */
  datatype Config = Config(
    windowBucket: string,
    goal: string,
    lookbackDays: int,
    minVideoSeconds: real,
    maxDatapoints: nat)

  /** What a browser window title holds after the video's title on a
      YouTube watch page (an em dash ends it). */
  const YouTubeMarker: string := " - YouTube \U{2014}"

  /** The video a window event shows: the trimmed text before the first
      marker, or none when the title has no marker. */
  function VideoKey(e: Event): (r: Option<string>)
    ensures r.None? <==> !Contains(e.data.title, YouTubeMarker)
  {
    match SplitOnce(e.data.title, YouTubeMarker)
    case None => None
    case Some(parts) => Some(Trim(parts.0))
  }

  /** A window title made of a video title, the marker and anything after
      it names that video, trimmed, when the marker does not occur earlier. */
  lemma VideoKeyReadsTitle(e: Event, video: string, rest: string)
    requires e.data.title == video + YouTubeMarker + rest
    requires forall j :: 0 <= j < |video| ==> !StartsAt(e.data.title, YouTubeMarker, j)
    ensures VideoKey(e) == Some(Trim(video))
  {
    var title := e.data.title;
    assert StartsAt(title, YouTubeMarker, |video|) by {
      assert title[|video|..|video| + |YouTubeMarker|] == YouTubeMarker;
    }
    var r := SplitOnce(title, YouTubeMarker);
    assert r.Some?;
    var before := r.value.0;
    assert StartsAt(title, YouTubeMarker, |before|) by {
      assert title[|before|..|before| + |YouTubeMarker|] == YouTubeMarker;
    }
    assert |before| == |video|;
    assert before == title[..|before|] == video;
  }

  /** Seconds watched per video (`video_to_time`). */
  function VideoTotals(events: seq<Event>): (m: map<string, real>)
    ensures forall k :: k in m <==> exists i :: 0 <= i < |events| && VideoKey(events[i]) == Some(k)
  {
    SumBy(events, VideoKey, DurationOf)
  }

  /** Watched for more than `min` seconds in total. */
  function WatchedLongEnough(totals: map<string, real>, min: real): string -> bool {
    k => k in totals && totals[k] > min
  }

  /** The videos of the events kept by the threshold are those whose total
      is over it. */
  lemma LongVideos(events: seq<Event>, min: real, t: string)
    ensures var totals := VideoTotals(events);
      t in Filter(KeysInOrder(events, VideoKey), WatchedLongEnough(totals, min)) <==> t in totals && totals[t] > min
  {
    var totals := VideoTotals(events);
    var keys := KeysInOrder(events, VideoKey);
    var long := Filter(keys, WatchedLongEnough(totals, min));
    KeysInOrderMembers(events, VideoKey, t);
    if t in totals && totals[t] > min {
      var k :| 0 <= k < |keys| && keys[k] == t;
      assert WatchedLongEnough(totals, min)(keys[k]);
    }
    if t in long {
      var k :| 0 <= k < |long| && long[k] == t;
      assert WatchedLongEnough(totals, min)(long[k]);
    }
  }

  /** `get_seen_titles` after the read: the videos watched for more than
      `min` seconds, sorted, each once. */
  function SeenTitles(events: seq<Event>, min: real): (r: seq<string>)
    ensures StrictlySorted(r)
    ensures forall t :: t in r <==> t in VideoTotals(events) && VideoTotals(events)[t] > min
  {
    var long := Filter(KeysInOrder(events, VideoKey), WatchedLongEnough(VideoTotals(events), min));
    assert forall t :: t in long <==> t in VideoTotals(events) && VideoTotals(events)[t] > min by {
      forall t ensures t in long <==> t in VideoTotals(events) && VideoTotals(events)[t] > min {
        LongVideos(events, min, t);
      }
    }
    SortDistinct(long)
  }

  /** A video is seen exactly when some event shows it and its events add up
      to more than `min` seconds. */
  lemma SeenTitlesAreLongVideos(events: seq<Event>, min: real, t: string)
    ensures t in SeenTitles(events, min) <==>
      (exists i :: 0 <= i < |events| && VideoKey(events[i]) == Some(t))
      && Total(events, VideoKey, DurationOf, t) > min
  {
    if t in VideoTotals(events) {
      SumByIsTotal(events, VideoKey, DurationOf, t);
    }
  }

  /** The seen titles do not depend on the order the totals are visited in:
      any sorted list of the same videos, each once, is the same list. */
  lemma SeenTitlesDetermined(events: seq<Event>, min: real, titles: seq<string>)
    requires StrictlySorted(titles)
    requires forall t :: t in titles <==> t in VideoTotals(events) && VideoTotals(events)[t] > min
    ensures titles == SeenTitles(events, min)
  {
    SortedUnique(titles, SeenTitles(events, min));
  }

  /** `get_logged_titles` after the read: the comments of the datapoints, an
      absent comment counting as the empty string. */
  function LoggedTitles(dps: seq<Datapoint>): (r: set<string>)
    ensures forall i :: 0 <= i < |dps| ==> dps[i].comment.GetOr("") in r
    ensures forall t :: t in r ==> exists i :: 0 <= i < |dps| && dps[i].comment.GetOr("") == t
  {
    set i | 0 <= i < |dps| :: dps[i].comment.GetOr("")
  }

  /** `get_datapoints(goal, None, Some(max_datapoints))`. */
  function LoggedQuery(cfg: Config): Query {
    Query(cfg.goal, None, Some(cfg.maxDatapoints))
  }

  /** The events of the last `lookbackDays` days up to now. */
  function RecentEvents(cfg: Config, source: EventSource, now: DateTime): Result<seq<Event>, Error> {
    GetEvents(source, cfg.windowBucket, AddDays(Utc(now), -cfg.lookbackDays), Utc(now))
  }

  /** The datapoint logging one watched video. */
  function Watched(title: string, now: DateTime): (p: CreateDatapoint)
    ensures p.value == 1.0 && p.comment == Some(title)
    ensures p.timestamp == Some(Utc(now)) && p.daystamp.None? && p.requestid.None?
  {
    CreateDatapoint(1.0, Some(Utc(now)), None, Some(title), None)
  }

  /** A title not yet among the logged ones. */
  function Unlogged(logged: set<string>): string -> bool {
    t => t !in logged
  }

  /** One create per title, in order. */
  function LogOps(goal: string, titles: seq<string>, now: DateTime): seq<Op> {
    seq(|titles|, i requires 0 <= i < |titles| => Create(goal, Watched(titles[i], now)))
  }

  /** The whole job: read the logged titles, then the seen ones, and create
      a datapoint for every seen title that is not logged.  The creates
      themselves cannot fail to be formed, so only the reads end the job
      early, the logged titles being read first. */
  function CleanTubePlan(cfg: Config, listing: Listing, source: EventSource, now: DateTime): (p: Plan)
    ensures listing(LoggedQuery(cfg)).Failure? ==> p == Abort(listing(LoggedQuery(cfg)).error)
    ensures listing(LoggedQuery(cfg)).Success? && RecentEvents(cfg, source, now).Failure? ==>
      p == Abort(RecentEvents(cfg, source, now).error)
    ensures listing(LoggedQuery(cfg)).Success? && RecentEvents(cfg, source, now).Success? ==> p.stop.None?
  {
    match listing(LoggedQuery(cfg))
    case Failure(e) => Abort(e)
    case Success(dps) =>
      match RecentEvents(cfg, source, now)
      case Failure(e) => Abort(e)
      case Success(events) =>
        var seen := SeenTitles(events, cfg.minVideoSeconds);
        Plan(LogOps(cfg.goal, Filter(seen, Unlogged(LoggedTitles(dps))), now), None)
  }

  /** Filtering a strictly sorted list keeps it strictly sorted. */
  lemma {:induction false} FilterKeepsSorted(xs: seq<string>, p: string -> bool)
    requires StrictlySorted(xs)
    ensures StrictlySorted(Filter(xs, p))
    decreases |xs|
  {
    if xs != [] {
      var rest := Filter(xs[1..], p);
      assert StrictlySorted(xs[1..]) by {
        forall i | 0 < i < |xs[1..]| ensures Below(xs[1..][i - 1], xs[1..][i]) {
          assert xs[1..][i - 1] == xs[i] && xs[1..][i] == xs[i + 1];
        }
      }
      FilterKeepsSorted(xs[1..], p);
      if p(xs[0]) && rest != [] {
        var k :| 0 <= k < |xs[1..]| && xs[1..][k] == rest[0];
        SortedBelow(xs, 0, k + 1);
      }
    }
  }

  /** Every create logs a seen, unlogged video with value 1 in the goal,
      alphabetically and without repeats, and the job ends without error. */
  lemma CleanTubeLogsOnlyUnlogged(cfg: Config, listing: Listing, source: EventSource, now: DateTime)
    requires listing(LoggedQuery(cfg)).Success? && RecentEvents(cfg, source, now).Success?
    ensures var p := CleanTubePlan(cfg, listing, source, now);
      var seen := SeenTitles(RecentEvents(cfg, source, now).value, cfg.minVideoSeconds);
      var logged := LoggedTitles(listing(LoggedQuery(cfg)).value);
      && p.stop.None?
      && (forall i :: 0 <= i < |p.ops| ==>
            p.ops[i] == Create(cfg.goal, Watched(p.ops[i].point.comment.value, now))
            && p.ops[i].point.comment.value in seen && p.ops[i].point.comment.value !in logged)
      && (forall i, j :: 0 <= i < j < |p.ops| ==> Below(p.ops[i].point.comment.value, p.ops[j].point.comment.value))
  {
    var seen := SeenTitles(RecentEvents(cfg, source, now).value, cfg.minVideoSeconds);
    var logged := LoggedTitles(listing(LoggedQuery(cfg)).value);
    var titles := Filter(seen, Unlogged(logged));
    var p := CleanTubePlan(cfg, listing, source, now);
    assert p.ops == LogOps(cfg.goal, titles, now);
    FilterKeepsSorted(seen, Unlogged(logged));
    forall i | 0 <= i < |p.ops|
      ensures p.ops[i] == Create(cfg.goal, Watched(p.ops[i].point.comment.value, now))
      ensures p.ops[i].point.comment.value in seen && p.ops[i].point.comment.value !in logged
    {
      assert p.ops[i].point.comment.value == titles[i];
      assert Unlogged(logged)(titles[i]);
    }
    forall i, j | 0 <= i < j < |p.ops| ensures Below(p.ops[i].point.comment.value, p.ops[j].point.comment.value) {
      SortedBelow(titles, i, j);
    }
  }

  /** Every seen video that is not logged gets a create. */
  lemma CleanTubeLogsEveryUnlogged(cfg: Config, listing: Listing, source: EventSource, now: DateTime, t: string)
    requires listing(LoggedQuery(cfg)).Success? && RecentEvents(cfg, source, now).Success?
    requires t in SeenTitles(RecentEvents(cfg, source, now).value, cfg.minVideoSeconds)
    requires t !in LoggedTitles(listing(LoggedQuery(cfg)).value)
    ensures exists i :: (0 <= i < |CleanTubePlan(cfg, listing, source, now).ops|
      && CleanTubePlan(cfg, listing, source, now).ops[i] == Create(cfg.goal, Watched(t, now)))
  {
    var seen := SeenTitles(RecentEvents(cfg, source, now).value, cfg.minVideoSeconds);
    var logged := LoggedTitles(listing(LoggedQuery(cfg)).value);
    var titles := Filter(seen, Unlogged(logged));
    var p := CleanTubePlan(cfg, listing, source, now);
    assert p.ops == LogOps(cfg.goal, titles, now);
    var k :| 0 <= k < |seen| && seen[k] == t;
    assert Unlogged(logged)(seen[k]);
    var i :| 0 <= i < |titles| && titles[i] == t;
    assert p.ops[i] == Create(cfg.goal, Watched(t, now));
  }

  /** After the creates for `titles` are accepted, each of them, and each
      title logged in the goal before, is the comment of a datapoint of the
      goal. */
  lemma {:induction false} LoggedOrCreated(s: Store, goal: string, dps: seq<Datapoint>, titles: seq<string>,
                                           now: DateTime, t: string)
    requires forall k :: 0 <= k < |dps| ==> dps[k] in Points(s, goal)
    requires t in titles || t in LoggedTitles(dps)
    ensures exists d :: d in Points(Apply(s, LogOps(goal, titles, now), now), goal) && d.comment.GetOr("") == t
  {
    var ops := LogOps(goal, titles, now);
    var after := Points(Apply(s, ops, now), goal);
    assert forall k :: 0 <= k < |ops| ==> ops[k].Create?;
    if t in titles {
      var i :| 0 <= i < |titles| && titles[i] == t;
      CreatesRecorded(s, ops, now, i);
      var d := Stored(ops[i].point, s.nextId + i, now, s.dayOf);
      assert d in after && d.comment == Some(t);
    } else {
      var k :| 0 <= k < |dps| && dps[k].comment.GetOr("") == t;
      CreatesKeep(s, ops, now, goal, dps[k]);
      assert dps[k] in after;
    }
  }

  /** After a run whose creates were all accepted, every seen video is among
      the comments of the goal's datapoints. */
  lemma SeenTitlesLogged(cfg: Config, dps: seq<Datapoint>, events: seq<Event>, s: Store, now: DateTime, t: string)
    requires IsWindow(s, LoggedQuery(cfg), dps)
    requires t in SeenTitles(events, cfg.minVideoSeconds)
    ensures var ops := LogOps(cfg.goal, Filter(SeenTitles(events, cfg.minVideoSeconds), Unlogged(LoggedTitles(dps))), now);
      exists d :: d in Points(Apply(s, ops, now), cfg.goal) && d.comment.GetOr("") == t
  {
    var seen := SeenTitles(events, cfg.minVideoSeconds);
    var logged := LoggedTitles(dps);
    if t !in logged {
      var j :| 0 <= j < |seen| && seen[j] == t;
      assert Unlogged(logged)(seen[j]);
    }
    LoggedOrCreated(s, cfg.goal, dps, Filter(seen, Unlogged(logged)), now, t);
  }

  /** Running the job again over the same events, after the first run was
      wholly accepted, creates nothing, provided the rerun's window (a window
      onto the goal the first run left, capped at `maxDatapoints`) shows a
      datapoint for each seen title the goal then logs in a comment. */
  lemma CleanTubeRerunCreatesNothing(cfg: Config, listing: Listing, again: Listing, source: EventSource,
                                     now: DateTime, later: DateTime, s: Store)
    requires listing(LoggedQuery(cfg)).Success? && RecentEvents(cfg, source, now).Success?
    requires IsWindow(s, LoggedQuery(cfg), listing(LoggedQuery(cfg)).value)
    requires RecentEvents(cfg, source, later) == RecentEvents(cfg, source, now)
    requires var after := Sync(s, CleanTubePlan(cfg, listing, source, now), map[], now).store;
      && again(LoggedQuery(cfg)).Success? && IsWindow(after, LoggedQuery(cfg), again(LoggedQuery(cfg)).value)
      && var seen := SeenTitles(RecentEvents(cfg, source, now).value, cfg.minVideoSeconds);
         forall i :: 0 <= i < |seen| && seen[i] in LoggedTitles(Points(after, cfg.goal)) ==>
           seen[i] in LoggedTitles(again(LoggedQuery(cfg)).value)
    ensures CleanTubePlan(cfg, again, source, later) == Plan([], None)
  {
    var dps := listing(LoggedQuery(cfg)).value;
    var events := RecentEvents(cfg, source, now).value;
    var seen := SeenTitles(events, cfg.minVideoSeconds);
    var p := CleanTubePlan(cfg, listing, source, now);
    var ops := LogOps(cfg.goal, Filter(seen, Unlogged(LoggedTitles(dps))), now);
    assert p.ops == ops;
    SyncAllAccepted(s, p, now);
    var after := Points(Apply(s, ops, now), cfg.goal);
    var logged2 := LoggedTitles(again(LoggedQuery(cfg)).value);
    forall i | 0 <= i < |seen| ensures seen[i] in LoggedTitles(after) {
      SeenTitlesLogged(cfg, dps, events, s, now, seen[i]);
      CommentLogged(after, seen[i]);
    }
    forall i | 0 <= i < |seen| ensures !Unlogged(logged2)(seen[i]) {
    }
    FilterNone(seen, Unlogged(logged2));
  }

  /** A datapoint whose comment is `t` logs `t`. */
  lemma CommentLogged(dps: seq<Datapoint>, t: string)
    requires exists d :: d in dps && d.comment.GetOr("") == t
    ensures t in LoggedTitles(dps)
  {
    var d :| d in dps && d.comment.GetOr("") == t;
    var k :| 0 <= k < |dps| && dps[k] == d;
  }
}
