/** `github_sync`: every commit the user made since the goal's newest
    non-zero datapoint becomes a datapoint, keyed by its sha so that a
    commit is never entered twice. */
module GithubSync {
  import opened Wrappers
  import opened Calendar
  import opened Daystamps
  import opened Text
  import opened Collections
  import opened Beeminder
  import opened GithubLight
  import opened Dedup

  /** `GitHubConfig` without the token; the user's repositories are those
      the `GitHub` service lists. */
  datatype Config = Config(goal: string)

  /** The read of the newest datapoint. */
  function NewestQuery(cfg: Config): Query {
    Query(cfg.goal, Some("timestamp"), Some(1))
  }

  /** The read of as many datapoints as there are fetched commits. */
  function ExistingQuery(cfg: Config, n: nat): Query {
    Query(cfg.goal, Some("timestamp"), Some(n))
  }

  function CommitKey(c: Commit): Option<string> {
    Some(c.sha)
  }

  /** `"{repository}: {first line of the message, trimmed}"`. */
  function CommitComment(c: Commit): string {
    c.repository + ": " + Trim(FirstLine(c.message))
  }

  /** The comment names the repository, then gives the first line of the
      message without surrounding whitespace: a single line, which is the
      whole trimmed message when the message is one line, the text before
      the first line break (without a closing `\r`) otherwise, and nothing
      when the message is empty. */
  lemma CommitCommentParts(c: Commit)
    ensures var head := c.repository + ": ";
      var comment := CommitComment(c);
      && |head| <= |comment| && comment[..|head|] == head
      && var rest := comment[|head|..];
      && '\n' !in rest
      && (|rest| > 0 ==> !IsWhitespace(rest[0]) && !IsWhitespace(rest[|rest| - 1]))
      && ('\n' !in c.message ==> rest == Trim(c.message))
      && (forall i :: 0 <= i < |c.message| && c.message[i] == '\n' && '\n' !in c.message[..i] ==>
            rest == Trim(StripCarriageReturn(c.message[..i])))
      && (c.message == "" ==> rest == "")
  {
    var head := c.repository + ": ";
    var line := FirstLine(c.message);
    var rest := Trim(line);
    assert CommitComment(c) == head + rest;
    assert CommitComment(c)[|head|..] == rest;
    var i :| 0 <= i <= |line| && TrimmedAt(line, rest, i);
    if c.message == "" {
      assert line == "";
    }
  }

  /** `commit_to_datapoint`: one unit at the commit time, filed under the sha. */
  function CommitToDatapoint(c: Commit): (r: CreateDatapoint)
    ensures r.value == 1.0 && r.requestid == CommitKey(c)
    ensures r.timestamp == Some(c.committerDate) && r.daystamp == Some(DaystampOf(c.committerDate))
    ensures r.comment == Some(CommitComment(c))
  {
    CreateDatapoint(1.0, Some(c.committerDate), Some(DaystampOf(c.committerDate)), Some(CommitComment(c)), Some(c.sha))
  }

  /** Mapping a commit never fails. */
  function CommitStep(c: Commit): Result<CreateDatapoint, Error> {
    Success(CommitToDatapoint(c))
  }

  /** The job's reads and decisions. */
  function GithubPlan(cfg: Config, gh: GitHub, listing: Listing): (p: Plan)
    ensures listing(NewestQuery(cfg)).Failure? ==> p == Abort(listing(NewestQuery(cfg)).error)
    ensures listing(NewestQuery(cfg)).Success? ==>
      var commits := GetCommits(gh, Watermark(listing(NewestQuery(cfg)).value));
      && (commits.Failure? ==> p == Abort(commits.error))
      && (commits.Success? && listing(ExistingQuery(cfg, |commits.value|)).Failure? ==>
            p == Abort(listing(ExistingQuery(cfg, |commits.value|)).error))
      && (commits.Success? && listing(ExistingQuery(cfg, |commits.value|)).Success? ==>
            var known := RequestIds(listing(ExistingQuery(cfg, |commits.value|)).value);
            p == CreatePlan(cfg.goal, Fresh(commits.value, CommitKey, known), CommitStep))
  {
    match listing(NewestQuery(cfg))
    case Failure(e) => Abort(e)
    case Success(newest) =>
      match GetCommits(gh, Watermark(newest))
      case Failure(e) => Abort(e)
      case Success(commits) =>
        match listing(ExistingQuery(cfg, |commits|))
        case Failure(e) => Abort(e)
        case Success(existing) => CreatePlan(cfg.goal, Fresh(commits, CommitKey, RequestIds(existing)), CommitStep)
  }

  /** Once the reads succeed the job only creates: the fetched commits
      whose sha no fetched datapoint carries, newest first in the fetched
      list, so created oldest first, and it ends without error when every
      create is accepted. */
  lemma GithubCreatesUnseenCommits(cfg: Config, gh: GitHub, listing: Listing)
    requires listing(NewestQuery(cfg)).Success?
    requires GetCommits(gh, Watermark(listing(NewestQuery(cfg)).value)).Success?
    requires listing(ExistingQuery(cfg, |GetCommits(gh, Watermark(listing(NewestQuery(cfg)).value)).value|)).Success?
    ensures var commits := GetCommits(gh, Watermark(listing(NewestQuery(cfg)).value)).value;
      var known := RequestIds(listing(ExistingQuery(cfg, |commits|)).value);
      var unseen := Filter(commits, Unrecorded(CommitKey, known));
      var p := GithubPlan(cfg, gh, listing);
      && p.stop.None?
      && |p.ops| == |unseen|
      && (forall i :: 0 <= i < |p.ops| ==> p.ops[i] == Create(cfg.goal, CommitToDatapoint(unseen[|unseen| - 1 - i])))
  {
    var commits := GetCommits(gh, Watermark(listing(NewestQuery(cfg)).value)).value;
    var known := RequestIds(listing(ExistingQuery(cfg, |commits|)).value);
    var p := GithubPlan(cfg, gh, listing);
    assert p == CreatePlan(cfg.goal, Fresh(commits, CommitKey, known), CommitStep);
    TotalCreatePlan(cfg.goal, commits, CommitKey, known, CommitStep);
  }

  /** No create repeats a fetched `requestid`, and every commit whose sha
      none of them carries is created. */
  lemma GithubSkipsOnlyKnown(cfg: Config, gh: GitHub, listing: Listing)
    requires listing(NewestQuery(cfg)).Success?
    requires GetCommits(gh, Watermark(listing(NewestQuery(cfg)).value)).Success?
    requires listing(ExistingQuery(cfg, |GetCommits(gh, Watermark(listing(NewestQuery(cfg)).value)).value|)).Success?
    ensures var commits := GetCommits(gh, Watermark(listing(NewestQuery(cfg)).value)).value;
      var known := RequestIds(listing(ExistingQuery(cfg, |commits|)).value);
      var p := GithubPlan(cfg, gh, listing);
      && (forall i :: 0 <= i < |p.ops| ==> p.ops[i].point.requestid.value !in known)
      && (forall i :: 0 <= i < |commits| && commits[i].sha !in known ==>
            commits[i] in Filter(commits, Unrecorded(CommitKey, known)))
  {
    var commits := GetCommits(gh, Watermark(listing(NewestQuery(cfg)).value)).value;
    var known := RequestIds(listing(ExistingQuery(cfg, |commits|)).value);
    var p := GithubPlan(cfg, gh, listing);
    assert p == CreatePlan(cfg.goal, Fresh(commits, CommitKey, known), CommitStep);
    assert KeepsKey(commits, CommitKey, CommitStep);
    CreatesOnlyUnknown(cfg.goal, commits, CommitKey, known, CommitStep);
    forall i | 0 <= i < |commits| && commits[i].sha !in known
      ensures commits[i] in Filter(commits, Unrecorded(CommitKey, known))
    {
      UnknownIsPending(commits, CommitKey, known, i);
    }
  }

  /** A rerun over the same commits creates nothing once the first run was
      wholly accepted, provided the rerun's datapoint window (a window onto
      the goal the first run left) shows the sha of each fetched commit the
      goal then records; both windows hold at most as many datapoints as
      there are commits. */
  lemma GithubRerunCreatesNothing(cfg: Config, gh: GitHub, listing: Listing, again: Listing, s: Store, now: DateTime)
    requires listing(NewestQuery(cfg)).Success?
    requires GetCommits(gh, Watermark(listing(NewestQuery(cfg)).value)).Success?
    requires var n := |GetCommits(gh, Watermark(listing(NewestQuery(cfg)).value)).value|;
      listing(ExistingQuery(cfg, n)).Success? && IsWindow(s, ExistingQuery(cfg, n), listing(ExistingQuery(cfg, n)).value)
    requires again(NewestQuery(cfg)).Success?
    requires GetCommits(gh, Watermark(again(NewestQuery(cfg)).value)) == GetCommits(gh, Watermark(listing(NewestQuery(cfg)).value))
    requires var commits := GetCommits(gh, Watermark(listing(NewestQuery(cfg)).value)).value;
      var q := ExistingQuery(cfg, |commits|);
      var after := Sync(s, GithubPlan(cfg, gh, listing), map[], now).store;
      && again(q).Success? && IsWindow(after, q, again(q).value)
      && forall i :: 0 <= i < |commits| && commits[i].sha in RequestIds(Points(after, cfg.goal)) ==>
           commits[i].sha in RequestIds(again(q).value)
    ensures GithubPlan(cfg, gh, again) == Plan([], None)
  {
    var commits := GetCommits(gh, Watermark(listing(NewestQuery(cfg)).value)).value;
    var n := |commits|;
    var existing := listing(ExistingQuery(cfg, n)).value;
    var known := RequestIds(existing);
    var p := GithubPlan(cfg, gh, listing);
    assert p == CreatePlan(cfg.goal, Fresh(commits, CommitKey, known), CommitStep);
    GithubCreatesUnseenCommits(cfg, gh, listing);
    SyncAllAccepted(s, p, now);
    WindowRequestIds(s, ExistingQuery(cfg, n), existing);
    assert KeepsKey(commits, CommitKey, CommitStep);
    CreatePlanRecordsAll(s, cfg.goal, commits, CommitKey, known, CommitStep, now);
    var later := RequestIds(again(ExistingQuery(cfg, n)).value);
    AllKnownCreatesNothing(cfg.goal, commits, CommitKey, later, CommitStep);
  }
}
