/** `fatebook_sync`: every Fatebook question becomes a datapoint of the
    goal `fatebook`, keyed by the question's id so that a question is never
    entered twice.  There is no watermark: all questions are read each run. */
module FatebookSync {
  import opened Wrappers
  import opened Calendar
  import opened Daystamps
  import opened Collections
  import opened Beeminder
  import opened Dedup

  /** The fields of `fatebook::Question` the job reads. */
  datatype Question = Question(id: string, title: string, createdAt: DateTime)

  /** The goal is fixed. */
  const Goal: string := "fatebook"

  /** The read of as many datapoints as there are questions. */
  function ExistingQuery(n: nat): Query {
    Query(Goal, Some("timestamp"), Some(n))
  }

  function QuestionKey(q: Question): Option<string> {
    Some(q.id)
  }

  /** `question_to_datapoint`: one unit at the creation time, titled with
      the question and filed under its id. */
  function QuestionToDatapoint(q: Question): (r: CreateDatapoint)
    ensures r.value == 1.0 && r.requestid == QuestionKey(q) && r.comment == Some(q.title)
    ensures r.timestamp == Some(q.createdAt) && r.daystamp == Some(DaystampOf(q.createdAt))
  {
    CreateDatapoint(1.0, Some(q.createdAt), Some(DaystampOf(q.createdAt)), Some(q.title), Some(q.id))
  }

  /** Mapping a question never fails. */
  function QuestionStep(q: Question): Result<CreateDatapoint, Error> {
    Success(QuestionToDatapoint(q))
  }

  /** The job's reads and decisions; `questions` is what `get_questions`
      returns. */
  function FatebookPlan(questions: Result<seq<Question>, Error>, listing: Listing): (p: Plan)
    ensures questions.Failure? ==> p == Abort(questions.error)
    ensures questions.Success? && listing(ExistingQuery(|questions.value|)).Failure? ==>
      p == Abort(listing(ExistingQuery(|questions.value|)).error)
    ensures questions.Success? && listing(ExistingQuery(|questions.value|)).Success? ==>
      var known := RequestIds(listing(ExistingQuery(|questions.value|)).value);
      p == CreatePlan(Goal, Fresh(questions.value, QuestionKey, known), QuestionStep)
  {
    match questions
    case Failure(e) => Abort(e)
    case Success(qs) =>
      match listing(ExistingQuery(|qs|))
      case Failure(e) => Abort(e)
      case Success(existing) => CreatePlan(Goal, Fresh(qs, QuestionKey, RequestIds(existing)), QuestionStep)
  }

  /** Once the read succeeds the job only creates, in the goal `fatebook`,
      the questions whose id no fetched datapoint carries, in the reverse of
      the fetched order, and it ends without error when every create is
      accepted. */
  lemma FatebookCreatesUnseenQuestions(questions: seq<Question>, listing: Listing)
    requires listing(ExistingQuery(|questions|)).Success?
    ensures var known := RequestIds(listing(ExistingQuery(|questions|)).value);
      var unseen := Filter(questions, Unrecorded(QuestionKey, known));
      var p := FatebookPlan(Success(questions), listing);
      && p.stop.None?
      && |p.ops| == |unseen|
      && (forall i :: 0 <= i < |p.ops| ==> p.ops[i] == Create(Goal, QuestionToDatapoint(unseen[|unseen| - 1 - i])))
  {
    var known := RequestIds(listing(ExistingQuery(|questions|)).value);
    var p := FatebookPlan(Success(questions), listing);
    assert p == CreatePlan(Goal, Fresh(questions, QuestionKey, known), QuestionStep);
    TotalCreatePlan(Goal, questions, QuestionKey, known, QuestionStep);
  }

  /** No create repeats a fetched `requestid`, and every question whose id
      none of them carries is created. */
  lemma FatebookSkipsOnlyKnown(questions: seq<Question>, listing: Listing)
    requires listing(ExistingQuery(|questions|)).Success?
    ensures var known := RequestIds(listing(ExistingQuery(|questions|)).value);
      var p := FatebookPlan(Success(questions), listing);
      && (forall i :: 0 <= i < |p.ops| ==> p.ops[i].point.requestid.value !in known)
      && (forall i :: 0 <= i < |questions| && questions[i].id !in known ==>
            questions[i] in Filter(questions, Unrecorded(QuestionKey, known)))
  {
    var known := RequestIds(listing(ExistingQuery(|questions|)).value);
    var p := FatebookPlan(Success(questions), listing);
    assert p == CreatePlan(Goal, Fresh(questions, QuestionKey, known), QuestionStep);
    assert KeepsKey(questions, QuestionKey, QuestionStep);
    CreatesOnlyUnknown(Goal, questions, QuestionKey, known, QuestionStep);
    forall i | 0 <= i < |questions| && questions[i].id !in known
      ensures questions[i] in Filter(questions, Unrecorded(QuestionKey, known))
    {
      UnknownIsPending(questions, QuestionKey, known, i);
    }
  }

  /** A rerun over the same questions creates nothing once the first run
      was wholly accepted, provided its datapoint window (a window onto the
      goal the first run left) shows the id of each fetched question the goal
      then records; both windows hold at most as many datapoints as there
      are questions. */
  lemma FatebookRerunCreatesNothing(questions: seq<Question>, listing: Listing, again: Listing, s: Store, now: DateTime)
    requires listing(ExistingQuery(|questions|)).Success?
    requires IsWindow(s, ExistingQuery(|questions|), listing(ExistingQuery(|questions|)).value)
    requires var q := ExistingQuery(|questions|);
      var after := Sync(s, FatebookPlan(Success(questions), listing), map[], now).store;
      && again(q).Success? && IsWindow(after, q, again(q).value)
      && forall i :: 0 <= i < |questions| && questions[i].id in RequestIds(Points(after, Goal)) ==>
           questions[i].id in RequestIds(again(q).value)
    ensures FatebookPlan(Success(questions), again) == Plan([], None)
  {
    var existing := listing(ExistingQuery(|questions|)).value;
    var known := RequestIds(existing);
    var p := FatebookPlan(Success(questions), listing);
    FatebookCreatesUnseenQuestions(questions, listing);
    SyncAllAccepted(s, p, now);
    WindowRequestIds(s, ExistingQuery(|questions|), existing);
    assert KeepsKey(questions, QuestionKey, QuestionStep);
    CreatePlanRecordsAll(s, Goal, questions, QuestionKey, known, QuestionStep, now);
    var later := RequestIds(again(ExistingQuery(|questions|)).value);
    AllKnownCreatesNothing(Goal, questions, QuestionKey, later, QuestionStep);
  }
}
