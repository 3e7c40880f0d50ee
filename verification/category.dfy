/** `category_sync`: the tasks of an Amazing Marvin category completed in
    the last two weeks become datapoints of a goal, one per task, keyed by
    the task's `_id` so that a task is never entered twice. */
module CategorySync {
  import opened Wrappers
  import opened Calendar
  import opened Daystamps
  import opened Text
  import opened Json
  import opened Beeminder
  import opened Marvin
  import opened Dedup

  /** `CategorySyncConfig` without the credentials. */
  datatype Config = Config(category: string, goal: string)

  const UntitledTask: string := "Untitled task"
  const MissingId: Error := Failed("Task missing _id field")
  const MissingDoneAt: Error := Failed("Task missing doneAt field")

  /** One more than `i64::MAX`. */
  const I64Limit: int := 0x8000_0000_0000_0000

  function TooLarge(millis: nat): Error {
    Failed("Timestamp too large: " + Decimal(millis))
  }

  function InvalidDoneAt(millis: nat): Error {
    Failed("Invalid doneAt timestamp: " + Decimal(millis))
  }

  /** The task's `_id`, when it is a string. */
  function TaskKey(task: Doc): Option<string> {
    StrField(task, "_id")
  }

  /** `doneAt` when it is a `u64`: milliseconds since the epoch. */
  function DoneAtMillis(task: Doc): (r: Option<nat>)
    ensures r.Some? <==> "doneAt" in task && task["doneAt"].JInt? && 0 <= task["doneAt"].i < U64Limit
    ensures r.Some? ==> r.value == task["doneAt"].i
  {
    match Field(task, "doneAt")
    case None => None
    case Some(v) => AsU64(v)
  }

  /** The completion time: whole seconds of `doneAt`, in UTC. */
  function DoneAt(task: Doc): (r: Result<DateTime, Error>)
    ensures DoneAtMillis(task).None? ==> r == Failure(MissingDoneAt)
    ensures DoneAtMillis(task).Some? ==>
      var millis := DoneAtMillis(task).value;
      && (r.Success? <==> millis / 1000 <= MaxUnixTimestamp)
      && (r.Success? ==> r.value.offset == 0 && r.value.unix * 1000 <= millis < r.value.unix * 1000 + 1000)
      && (r.Failure? ==> r.error == InvalidDoneAt(millis))
  {
    match DoneAtMillis(task)
    case None => Failure(MissingDoneAt)
    case Some(millis) =>
      var seconds := millis / 1000;
      if seconds >= I64Limit then Failure(TooLarge(millis))
      else match FromUnixTimestamp(seconds)
        case None => Failure(InvalidDoneAt(millis))
        case Some(t) => Success(t)
  }

  /** `task_to_datapoint`: one unit, at the completion time, titled with the
      task's title and filed under its `_id`. */
  function TaskToDatapoint(task: Doc): (r: Result<CreateDatapoint, Error>)
    ensures TaskKey(task).None? ==> r == Failure(MissingId)
    ensures TaskKey(task).Some? && DoneAt(task).Failure? ==> r == Failure(DoneAt(task).error)
    ensures TaskKey(task).Some? && DoneAt(task).Success? ==> r.Success?
    ensures r.Success? ==>
      && r.value.value == 1.0
      && r.value.requestid == TaskKey(task)
      && r.value.timestamp == Some(DoneAt(task).value)
      && r.value.daystamp == Some(DaystampOf(DoneAt(task).value))
      && r.value.comment == Some(StrField(task, "title").GetOr(UntitledTask))
  {
    var id :- TaskKey(task).ToResult(MissingId);
    var title := StrField(task, "title").GetOr(UntitledTask);
    var doneAt :- DoneAt(task);
    Success(CreateDatapoint(1.0, Some(doneAt), Some(DaystampOf(doneAt)), Some(title), Some(id)))
  }

  /** The daystamp of a mapped task reads back as the UTC date of its
      timestamp, so it names the day the task was completed. */
  lemma TaskDaystampReadsBack(task: Doc)
    requires TaskToDatapoint(task).Success?
    ensures var dp := TaskToDatapoint(task).value;
      ParseDaystamp(dp.daystamp.value) == Some(DateOf(dp.timestamp.value))
  {
    var t := DoneAt(task).value;
    assert t.unix >= 0 && t.offset == 0;
    YearNotNegative(LocalDay(t));
    DaystampRoundTrip(DateOf(t));
  }

  /** The read of the goal's datapoints: sorted by timestamp, all of them. */
  function ExistingQuery(cfg: Config): Query {
    Query(cfg.goal, Some("timestamp"), None)
  }

  /** The job's reads and decisions, `nowMillis` being the clock reading
      the two-week cutoff is taken from. */
  function CategoryPlan(cfg: Config, server: Server, listing: Listing, nowMillis: nat): (p: Plan)
    ensures FindRecentlyCompletedTasks(server, cfg.category, nowMillis).Failure? ==>
      p == Abort(FindRecentlyCompletedTasks(server, cfg.category, nowMillis).error)
    ensures FindRecentlyCompletedTasks(server, cfg.category, nowMillis).Success? && listing(ExistingQuery(cfg)).Failure? ==>
      p == Abort(listing(ExistingQuery(cfg)).error)
    ensures FindRecentlyCompletedTasks(server, cfg.category, nowMillis).Success? && listing(ExistingQuery(cfg)).Success? ==>
      var tasks := FindRecentlyCompletedTasks(server, cfg.category, nowMillis).value;
      var known := RequestIds(listing(ExistingQuery(cfg)).value);
      p == CreatePlan(cfg.goal, Fresh(tasks, TaskKey, known), TaskToDatapoint)
  {
    match FindRecentlyCompletedTasks(server, cfg.category, nowMillis)
    case Failure(e) => Abort(e)
    case Success(tasks) =>
      match listing(ExistingQuery(cfg))
      case Failure(e) => Abort(e)
      case Success(existing) => CreatePlan(cfg.goal, Fresh(tasks, TaskKey, RequestIds(existing)), TaskToDatapoint)
  }

  /** A task with a string `_id` never fails for a missing `_id`. */
  lemma KeyedTaskNeverMissesId(task: Doc)
    requires TaskKey(task).Some?
    ensures TaskToDatapoint(task) != Failure(MissingId)
  {
    if TaskToDatapoint(task).Failure? {
      assert MissingId.message[0] == 'T' && MissingId.message[13] == '_';
      if DoneAtMillis(task).None? {
        assert MissingDoneAt.message[13] == 'd';
      } else {
        assert InvalidDoneAt(DoneAtMillis(task).value).message[0] == 'I';
      }
    }
  }

  /** Every create of the job goes to the goal and carries the `_id` of a
      fetched task that no existing datapoint carries as its `requestid`,
      and the creates come in the reverse of the fetched order. */
  lemma CategoryCreatesOnlyNew(cfg: Config, server: Server, listing: Listing, nowMillis: nat)
    requires FindRecentlyCompletedTasks(server, cfg.category, nowMillis).Success?
    requires listing(ExistingQuery(cfg)).Success?
    ensures var tasks := FindRecentlyCompletedTasks(server, cfg.category, nowMillis).value;
      var known := RequestIds(listing(ExistingQuery(cfg)).value);
      var p := CategoryPlan(cfg, server, listing, nowMillis);
      && (forall i :: 0 <= i < |p.ops| ==>
            && p.ops[i].Create? && p.ops[i].goal == cfg.goal
            && p.ops[i].point.requestid.Some? && p.ops[i].point.requestid.value !in known
            && exists k :: 0 <= k < |tasks| && TaskKey(tasks[k]) == p.ops[i].point.requestid)
      && (forall i :: 0 <= i < |p.ops| ==> p.ops[i] == Create(cfg.goal, TaskToDatapoint(Fresh(tasks, TaskKey, known)[i]).value))
  {
    var tasks := FindRecentlyCompletedTasks(server, cfg.category, nowMillis).value;
    var known := RequestIds(listing(ExistingQuery(cfg)).value);
    var pending := Fresh(tasks, TaskKey, known);
    var p := CategoryPlan(cfg, server, listing, nowMillis);
    assert p == CreatePlan(cfg.goal, pending, TaskToDatapoint);
    assert KeepsKey(tasks, TaskKey, TaskToDatapoint);
    CreatesOnlyUnknown(cfg.goal, tasks, TaskKey, known, TaskToDatapoint);
  }

  /** The `_id` error cannot end the job once the reads succeed: tasks
      without a string `_id` are filtered out before any is mapped. */
  lemma CategoryNeverStopsOnMissingId(cfg: Config, server: Server, listing: Listing, nowMillis: nat)
    requires FindRecentlyCompletedTasks(server, cfg.category, nowMillis).Success?
    requires listing(ExistingQuery(cfg)).Success?
    ensures CategoryPlan(cfg, server, listing, nowMillis).stop != Some(MissingId)
  {
    var p := CategoryPlan(cfg, server, listing, nowMillis);
    var found := FindRecentlyCompletedTasks(server, cfg.category, nowMillis);
    if p.stop.Some? {
      var pending := Fresh(found.value, TaskKey, RequestIds(listing(ExistingQuery(cfg)).value));
      assert p == CreatePlan(cfg.goal, pending, TaskToDatapoint);
      KeyedTaskNeverMissesId(pending[|p.ops|]);
    }
  }

  /** A second run against the goal the first one left behind creates
      nothing: once every create is accepted and every task mapped, all the
      fetched tasks are on the goal under their `_id`.  It needs the first
      read to be a window onto the goal and the second read to return the
      whole goal. */
  lemma CategoryRerunCreatesNothing(cfg: Config, server: Server, listing: Listing, again: Listing,
                                    nowMillis: nat, s: Store, now: DateTime)
    requires FindRecentlyCompletedTasks(server, cfg.category, nowMillis).Success?
    requires listing(ExistingQuery(cfg)).Success?
    requires IsWindow(s, ExistingQuery(cfg), listing(ExistingQuery(cfg)).value)
    requires CategoryPlan(cfg, server, listing, nowMillis).stop.None?
    requires again(ExistingQuery(cfg))
             == Success(Points(Sync(s, CategoryPlan(cfg, server, listing, nowMillis), map[], now).store, cfg.goal))
    ensures CategoryPlan(cfg, server, again, nowMillis) == Plan([], None)
  {
    var tasks := FindRecentlyCompletedTasks(server, cfg.category, nowMillis).value;
    var existing := listing(ExistingQuery(cfg)).value;
    var known := RequestIds(existing);
    var p := CategoryPlan(cfg, server, listing, nowMillis);
    assert p == CreatePlan(cfg.goal, Fresh(tasks, TaskKey, known), TaskToDatapoint);
    SyncAllAccepted(s, p, now);
    WindowRequestIds(s, ExistingQuery(cfg), existing);
    assert KeepsKey(tasks, TaskKey, TaskToDatapoint);
    CreatePlanRecordsAll(s, cfg.goal, tasks, TaskKey, known, TaskToDatapoint, now);
    var after := RequestIds(Points(Apply(s, p.ops, now), cfg.goal));
    AllKnownCreatesNothing(cfg.goal, tasks, TaskKey, after, TaskToDatapoint);
  }
}
