/** `clean_view_sync`: for each of the last `lookback_days` days, collect the
    browser window titles seen that day, have a language model judge them,
    and make the goal hold exactly one verdict per day: datapoints of the day
    that disagree with the verdict are deleted, and one is created when none
    agrees. */
module CleanView {
  import opened Wrappers
  import opened Calendar
  import opened Daystamps
  import opened Text
  import opened Collections
  import opened Beeminder
  import opened AwClient

  /** `CleanViewConfig` without the connection settings. */
  datatype Config = Config(
    windowBucket: string,
    goal: string,
    lookbackDays: int,
    minWindowDuration: real,
    promptTemplate: string)

  /** The services the job talks to besides the goal. */
  datatype World = World(
    events: EventSource,
    listing: Listing,
    classify: string -> Result<string, Error>,
    lower: string -> string,
    order: set<string> -> seq<string>)

  const Placeholder: string := "{{titles}}"
  const NoTitles: string := "\U{1FAD9} No titles."
  const Approved: string := "\U{2728} GPT approved."

  /** The number of existing datapoints fetched before reconciling. */
  const ExistingLimit: nat := 50

  /** How far apart two values may be and still agree. */
  const Tolerance: real := 0.01

  /** `get_prompt`: every placeholder in the template becomes the titles,
      one per line. */
  function Prompt(template: string, titles: seq<string>): string {
    Replace(template, Placeholder, Join(titles, "\n"))
  }

  /** A template without the placeholder is the prompt itself; otherwise the
      text up to the first placeholder is kept, the placeholder becomes the
      titles, and the rest of the template is treated the same way. */
  lemma PromptReplacesPlaceholders(template: string, titles: seq<string>)
    ensures !Contains(template, Placeholder) ==> Prompt(template, titles) == template
    ensures Contains(template, Placeholder) ==>
      var (before, after) := SplitOnce(template, Placeholder).value;
      && !Contains(before, Placeholder)
      && Prompt(template, titles) == before + Join(titles, "\n") + Prompt(after, titles)
  {
    if !Contains(template, Placeholder) {
      ReplaceWithoutMatch(template, Placeholder, Join(titles, "\n"));
    } else {
      ReplaceAtLeftmost(template, Placeholder, Join(titles, "\n"));
      var i := IndexOf(template, Placeholder).value;
      var (before, after) := SplitOnce(template, Placeholder).value;
      assert before == template[..i] && after == template[i + |Placeholder|..];
      forall j | 0 <= j <= |before| ensures !StartsAt(before, Placeholder, j) {
        if j + |Placeholder| <= |before| {
          assert template[j..j + |Placeholder|] == before[j..j + |Placeholder|];
          assert !StartsAt(template, Placeholder, j);
        }
      }
    }
  }

  /** One day's window, `[start, end]`. */
  datatype Bucket = Bucket(start: DateTime, end: DateTime)

  /** The bucket that ends at `end`, a day long. */
  function BucketEnding(end: DateTime): Bucket {
    Bucket(AddDays(end, -1), end)
  }

  /** The daystamp a bucket's verdict is filed under: the date of its end. */
  function Label(b: Bucket): string {
    DaystampOf(b.end)
  }

  /** The labels of the buckets, in order. */
  function Labels(buckets: seq<Bucket>): (r: seq<string>)
    ensures |r| == |buckets|
  {
    seq(|buckets|, j requires 0 <= j < |buckets| => Label(buckets[j]))
  }

  /** `for day_offset in (0..lookback_days).rev()`: bucket `j` ends
      `lookback_days - 1 - j` days before the most recent local midnight. */
  function Buckets(now: DateTime, lookbackDays: int): (r: seq<Bucket>)
    ensures |r| == if lookbackDays > 0 then lookbackDays else 0
  {
    if lookbackDays <= 0 then []
    else seq(lookbackDays, j requires 0 <= j < lookbackDays =>
               BucketEnding(AddDays(Midnight(now), j - (lookbackDays - 1))))
  }

  /** The buckets are consecutive whole days, oldest first, the last ending
      at the most recent local midnight. */
  lemma BucketsShape(now: DateTime, lookbackDays: int)
    ensures var r := Buckets(now, lookbackDays);
      && (|r| > 0 ==> r[|r| - 1].end == Midnight(now))
      && (forall j :: 0 <= j < |r| ==> LocalDay(r[j].end) == LocalDay(now) - (|r| - 1 - j))
      && (forall j :: 0 <= j < |r| ==> r[j].end.unix - r[j].start.unix == SecondsPerDay)
      && (forall j :: 0 <= j < |r| ==> LocalSeconds(r[j].end) % SecondsPerDay == 0)
      && (forall j :: 0 < j < |r| ==> r[j - 1].end == r[j].start)
  {
    var r := Buckets(now, lookbackDays);
    var m := Midnight(now);
    forall j | 0 <= j < |r|
      ensures LocalDay(r[j].end) == LocalDay(now) - (|r| - 1 - j)
      ensures r[j].end.unix - r[j].start.unix == SecondsPerDay
      ensures LocalSeconds(r[j].end) % SecondsPerDay == 0
    {
      assert r[j] == BucketEnding(AddDays(m, j - (|r| - 1)));
      AddDaysLocalDay(m, j - (|r| - 1));
      AddDaysKeepsMidnight(m, j - (|r| - 1));
    }
    forall j | 0 < j < |r| ensures r[j - 1].end == r[j].start {
      var k := j - (|r| - 1);
      assert r[j - 1] == BucketEnding(AddDays(m, (j - 1) - (|r| - 1)));
      assert r[j] == BucketEnding(AddDays(m, k));
      assert (k - 1) * SecondsPerDay == k * SecondsPerDay - SecondsPerDay;
    }
    if |r| > 0 {
      assert r[|r| - 1] == BucketEnding(AddDays(m, 0));
    }
  }

  /** Buckets carry distinct labels, as long as their dates are from year 0 on. */
  lemma BucketLabelsDistinct(now: DateTime, lookbackDays: int, i: int, j: int)
    requires var r := Buckets(now, lookbackDays);
      0 <= i < j < |r| && DateOf(r[i].end).year >= 0 && DateOf(r[j].end).year >= 0
    ensures Label(Buckets(now, lookbackDays)[i]) != Label(Buckets(now, lookbackDays)[j])
  {
    BucketsShape(now, lookbackDays);
    var r := Buckets(now, lookbackDays);
    DistinctDaysDistinctDaystamps(r[i].end, r[j].end);
  }

  /** A lower-cased title naming one of the watched browsers. */
  predicate IsBrowser(lowered: string) {
    Contains(lowered, "firefox") || Contains(lowered, "brave") || Contains(lowered, "chromium")
  }

  /** An event that counts towards a day: long enough and in a browser. */
  predicate Counts(e: Event, minDuration: real, lower: string -> string) {
    e.duration > minDuration && IsBrowser(lower(e.data.title))
  }

  /** The distinct titles of the events that count. */
  function DayTitles(events: seq<Event>, minDuration: real, lower: string -> string): (r: set<string>)
    decreases |events|
    ensures forall t :: t in r ==> exists i :: 0 <= i < |events| && events[i].data.title == t
                                               && Counts(events[i], minDuration, lower)
    ensures forall i :: 0 <= i < |events| && Counts(events[i], minDuration, lower) ==> events[i].data.title in r
  {
    if events == [] then {}
    else (if Counts(events[0], minDuration, lower) then {events[0].data.title} else {})
         + DayTitles(events[1..], minDuration, lower)
  }

  /** The events of a bucket, reduced to the titles that count. */
  function FetchDay(cfg: Config, w: World, b: Bucket): (r: Result<set<string>, Error>)
    ensures GetEvents(w.events, cfg.windowBucket, b.start, b.end).Failure? ==>
      r == Failure(GetEvents(w.events, cfg.windowBucket, b.start, b.end).error)
    ensures GetEvents(w.events, cfg.windowBucket, b.start, b.end).Success? ==>
      r == Success(DayTitles(GetEvents(w.events, cfg.windowBucket, b.start, b.end).value, cfg.minWindowDuration, w.lower))
  {
    var events :- GetEvents(w.events, cfg.windowBucket, b.start, b.end);
    Success(DayTitles(events, cfg.minWindowDuration, w.lower))
  }

  /** A day's judgment: the comment and value to record. */
  datatype Verdict = Verdict(comment: string, value: real)

  /** The judgment of a day's titles.  No titles is clean without asking
      the model; a reply of "no" is clean; any other reply is dirty, with
      the reply's second line as the comment. */
  function Judge(w: World, template: string, titles: set<string>): (r: Result<Verdict, Error>)
    ensures titles == {} ==> r == Success(Verdict(NoTitles, 1.0))
    ensures titles != {} ==> var reply := w.classify(Prompt(template, w.order(titles)));
      && (reply.Failure? ==> r == Failure(reply.error))
      && (reply.Success? && Trim(reply.value) == "no" ==> r == Success(Verdict(Approved, 1.0)))
      && (reply.Success? && Trim(reply.value) != "no" ==> r == Success(Verdict(SecondLine(reply.value), 0.0)))
  {
    if titles == {} then Success(Verdict(NoTitles, 1.0))
    else
      var reply :- w.classify(Prompt(template, w.order(titles)));
      if Trim(reply) == "no" then Success(Verdict(Approved, 1.0))
      else Success(Verdict(SecondLine(reply), 0.0))
  }

  /** A model reply with a reason on its second line yields a dirty day
      whose comment is exactly that reason, without a closing `\r`. */
  lemma JudgeDirtyReason(w: World, template: string, titles: set<string>, first: string, reason: string, rest: string)
    requires titles != {} && '\n' !in first && '\n' !in reason
    requires w.classify(Prompt(template, w.order(titles))) == Success(first + "\n" + reason + "\n" + rest)
    requires Trim(first + "\n" + reason + "\n" + rest) != "no"
    ensures Judge(w, template, titles) == Success(Verdict(StripCarriageReturn(reason), 0.0))
  {
    assert first + "\n" + reason + "\n" + rest == first + "\n" + (reason + "\n" + rest);
    SecondLineAfterNewline(first, reason + "\n" + rest);
    FirstLineOfLine(reason, rest);
  }

  /** `(a - b).abs() > 0.01`. */
  predicate Differs(a: real, b: real) {
    a - b > Tolerance || b - a > Tolerance
  }

  /** The deletions of a day, in the order of the existing datapoints: every
      datapoint of the day whose value differs from the verdict. */
  function Deletions(goal: string, day: string, value: real, existing: seq<Datapoint>): (r: seq<Op>)
    decreases |existing|
    ensures forall k :: 0 <= k < |r| ==> r[k].Delete? && r[k].goal == goal
    ensures forall e :: e in existing && e.daystamp == day && Differs(value, e.value) ==> Delete(goal, e.id) in r
  {
    if existing == [] then []
    else
      var e := existing[0];
      (if e.daystamp == day && Differs(value, e.value) then [Delete(goal, e.id)] else [])
        + Deletions(goal, day, value, existing[1..])
  }

  /** Nothing else is deleted: every deletion names a fetched datapoint of the
      day whose value differs from the verdict. */
  lemma {:induction false} DeletionsProvenance(goal: string, day: string, value: real, existing: seq<Datapoint>, k: nat)
    requires k < |Deletions(goal, day, value, existing)|
    ensures exists i :: 0 <= i < |existing| && existing[i].id == Deletions(goal, day, value, existing)[k].id
                        && existing[i].daystamp == day && Differs(value, existing[i].value)
    decreases |existing|
  {
    var r := Deletions(goal, day, value, existing);
    var e := existing[0];
    var tail := existing[1..];
    var head := if e.daystamp == day && Differs(value, e.value) then [Delete(goal, e.id)] else [];
    assert r == head + Deletions(goal, day, value, tail);
    if k >= |head| {
      DeletionsProvenance(goal, day, value, tail, k - |head|);
      var i :| 0 <= i < |tail| && tail[i].id == Deletions(goal, day, value, tail)[k - |head|].id
               && tail[i].daystamp == day && Differs(value, tail[i].value);
      assert tail[i] == existing[i + 1];
    }
  }

  /** Some existing datapoint of the day agrees with the verdict. */
  predicate Matched(day: string, value: real, existing: seq<Datapoint>) {
    exists e :: e in existing && e.daystamp == day && !Differs(value, e.value)
  }

  /** The datapoint that records a verdict: no timestamp, the day's daystamp. */
  function Record(day: string, v: Verdict): CreateDatapoint {
    CreateDatapoint(v.value, None, Some(day), Some(v.comment), None)
  }

  /** The writes for one judged day: its deletions, then a create unless an
      existing datapoint of the day agrees. */
  function DayOps(goal: string, day: string, v: Verdict, existing: seq<Datapoint>): seq<Op> {
    Deletions(goal, day, v.value, existing)
      + (if Matched(day, v.value, existing) then [] else [Create(goal, Record(day, v))])
  }

  /** A day's writes create a datapoint exactly when no fetched datapoint
      of the day agrees with the verdict, and then only one, last, holding
      the verdict; the deletions come first whether or not one agrees. */
  lemma DayCreatesOnlyWhenUnmatched(goal: string, day: string, v: Verdict, existing: seq<Datapoint>)
    ensures var ops := DayOps(goal, day, v, existing);
      && ((exists k :: 0 <= k < |ops| && ops[k].Create?) <==> !Matched(day, v.value, existing))
      && (!Matched(day, v.value, existing) ==> ops[|ops| - 1] == Create(goal, Record(day, v)))
      && ops[..|Deletions(goal, day, v.value, existing)|] == Deletions(goal, day, v.value, existing)
  {
    var dels := Deletions(goal, day, v.value, existing);
    var ops := DayOps(goal, day, v, existing);
    if !Matched(day, v.value, existing) {
      assert ops[|ops| - 1].Create?;
    }
  }

  /** The writes for a run of judged days, day by day. */
  function DaysOps(goal: string, labels: seq<string>, verdicts: seq<Verdict>, existing: seq<Datapoint>): (r: seq<Op>)
    requires |verdicts| <= |labels|
    decreases |verdicts|
  {
    if verdicts == [] then []
    else DayOps(goal, labels[0], verdicts[0], existing) + DaysOps(goal, labels[1..], verdicts[1..], existing)
  }

  /** Fetching one bucket, as a step of the run over all buckets. */
  function FetchStep(cfg: Config, w: World): Bucket -> Result<set<string>, Error> {
    b => FetchDay(cfg, w, b)
  }

  /** Judging one day, as a step of the run over all days. */
  function JudgeStep(cfg: Config, w: World): set<string> -> Result<Verdict, Error> {
    titles => Judge(w, cfg.promptTemplate, titles)
  }

  /** The read of the existing datapoints: once, at most 50, unsorted. */
  function ExistingQuery(cfg: Config): Query {
    Query(cfg.goal, None, Some(ExistingLimit))
  }

  /** Everything the job does: fetch every bucket's events, then the
      existing datapoints once, then judge and reconcile the days in order
      until a judgment fails. */
  function CleanViewPlan(cfg: Config, w: World, now: DateTime): (p: Plan)
    ensures var buckets := Buckets(now, cfg.lookbackDays);
      var days := Traverse(buckets, FetchStep(cfg, w));
      && (days.Failure? ==> p == Abort(days.error))
      && (days.Success? && w.listing(ExistingQuery(cfg)).Failure? ==> p == Abort(w.listing(ExistingQuery(cfg)).error))
      && (days.Success? && w.listing(ExistingQuery(cfg)).Success? ==>
            var judged := MapUntilFailure(days.value, JudgeStep(cfg, w));
            && p.stop == judged.stop
            && p.ops == DaysOps(cfg.goal, Labels(buckets), judged.done, w.listing(ExistingQuery(cfg)).value))
  {
    var buckets := Buckets(now, cfg.lookbackDays);
    match Traverse(buckets, FetchStep(cfg, w))
    case Failure(e) => Abort(e)
    case Success(titles) =>
      match w.listing(ExistingQuery(cfg))
      case Failure(e) => Abort(e)
      case Success(existing) =>
        var judged := MapUntilFailure(titles, JudgeStep(cfg, w));
        Plan(DaysOps(cfg.goal, Labels(buckets), judged.done, existing), judged.stop)
  }

  /** A failed judgment ends the job after the writes of the days before
      it: later days are neither judged nor written. */
  lemma JudgmentFailureStops(cfg: Config, w: World, now: DateTime, k: int, verdicts: seq<Verdict>)
    requires var days := Traverse(Buckets(now, cfg.lookbackDays), FetchStep(cfg, w));
      && days.Success? && w.listing(ExistingQuery(cfg)).Success?
      && 0 <= k < |days.value| && Judge(w, cfg.promptTemplate, days.value[k]).Failure?
      && |verdicts| == k
      && forall i :: 0 <= i < k ==> Judge(w, cfg.promptTemplate, days.value[i]) == Success(verdicts[i])
    ensures var days := Traverse(Buckets(now, cfg.lookbackDays), FetchStep(cfg, w)).value;
      var p := CleanViewPlan(cfg, w, now);
      && p.stop == Some(Judge(w, cfg.promptTemplate, days[k]).error)
      && p.ops == DaysOps(cfg.goal, Labels(Buckets(now, cfg.lookbackDays)), verdicts, w.listing(ExistingQuery(cfg)).value)
  {
    var days := Traverse(Buckets(now, cfg.lookbackDays), FetchStep(cfg, w)).value;
    StopsAtFirstFailure(days, JudgeStep(cfg, w), k, Judge(w, cfg.promptTemplate, days[k]).error, verdicts);
  }

}
