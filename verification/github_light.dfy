/** `github-light`: listing a user's repositories and collecting the
    user's commits across them. */
module GithubLight {
  import opened Wrappers
  import opened Calendar
  import opened Http
  import opened Collections

  /** `github_light::Commit`. */
  datatype Commit = Commit(sha: string, message: string, repository: string, committerDate: DateTime)

  /** One entry of the repository listing (`UserRepository`). */
  datatype UserRepository = UserRepository(fullName: string)

  /** One entry of a repository's commit listing (`RepoCommit`), with the
      committer date still as text. */
  datatype RepoCommit = RepoCommit(sha: string, message: string, committerDate: string)

  /** The body text used when an error response's text cannot be read. */
  const UnknownError: string := "Unknown error"

  /** The error for a committer date that is not RFC 3339. */
  const DateParseError: Error := Api(500, "Failed to parse commit date")

  /** `Error::DateFormat`: the `since` instant cannot be written as RFC 3339. */
  const DateFormatError: Error := Failed("Date formatting failed")

  /** The GitHub server as one user sees it: the answer to the repository
      listing, the answer to the commit listing of a repository since an
      instant, and RFC 3339 parsing (part of the `time` crate). */
  datatype GitHub = GitHub(
    repositories: Response<seq<UserRepository>>,
    commits: (string, DateTime) -> Response<seq<RepoCommit>>,
    parse: string -> Option<DateTime>)

  /** `get_user_repositories`: the full names in response order, or the
      error status with the body text. */
  function UserRepositories(resp: Response<seq<UserRepository>>): (r: Result<seq<string>, Error>)
    ensures !IsSuccess(resp.status) ==> r == Failure(Api(resp.status, resp.text.GetOr(UnknownError)))
    ensures IsSuccess(resp.status) && resp.decoded.Failure? ==> r == Failure(resp.decoded.error)
    ensures r.Success? <==> IsSuccess(resp.status) && resp.decoded.Success?
    ensures r.Success? ==> |r.value| == |resp.decoded.value|
    ensures r.Success? ==> forall i :: 0 <= i < |r.value| ==> r.value[i] == resp.decoded.value[i].fullName
  {
    var repos :- Checked(resp, UnknownError);
    Success(seq(|repos|, i requires 0 <= i < |repos| => repos[i].fullName))
  }

  /** One listed commit, fetched from `repo`. */
  function ToCommit(repo: string, parse: string -> Option<DateTime>, item: RepoCommit): (r: Result<Commit, Error>)
    ensures r.Failure? <==> parse(item.committerDate).None?
    ensures r.Failure? ==> r.error == DateParseError
    ensures r.Success? ==> r.value == Commit(item.sha, item.message, repo, parse(item.committerDate).value)
  {
    match parse(item.committerDate)
    case None => Failure(DateParseError)
    case Some(date) => Success(Commit(item.sha, item.message, repo, date))
  }

  /** `get_repository_commits`: `since` must be formattable; the listing
      must succeed; and then either every date parses and every commit is
      kept, or the whole repository fails. */
  function RepositoryCommits(gh: GitHub, repo: string, since: DateTime): (r: Result<seq<Commit>, Error>)
    ensures !Rfc3339Formattable(since) ==> r == Failure(DateFormatError)
    ensures Rfc3339Formattable(since) && !IsSuccess(gh.commits(repo, since).status) ==>
      r == Failure(Api(gh.commits(repo, since).status, gh.commits(repo, since).text.GetOr(UnknownError)))
    ensures r.Success? <==>
      Rfc3339Formattable(since) && IsSuccess(gh.commits(repo, since).status) && gh.commits(repo, since).decoded.Success?
      && forall i :: 0 <= i < |gh.commits(repo, since).decoded.value| ==>
           gh.parse(gh.commits(repo, since).decoded.value[i].committerDate).Some?
    ensures r.Success? ==> |r.value| == |gh.commits(repo, since).decoded.value|
    ensures r.Success? ==> forall i :: 0 <= i < |r.value| ==>
      var item := gh.commits(repo, since).decoded.value[i];
      r.value[i] == Commit(item.sha, item.message, repo, gh.parse(item.committerDate).value)
  {
    if !Rfc3339Formattable(since) then Failure(DateFormatError)
    else
      var items :- Checked(gh.commits(repo, since), UnknownError);
      Traverse(items, item => ToCommit(repo, gh.parse, item))
  }

  /** A listing whose dates parse except one fails with the date error. */
  lemma UnparseableDateFailsRepository(gh: GitHub, repo: string, since: DateTime, k: int)
    requires Rfc3339Formattable(since) && IsSuccess(gh.commits(repo, since).status)
    requires gh.commits(repo, since).decoded.Success?
    requires 0 <= k < |gh.commits(repo, since).decoded.value|
    requires gh.parse(gh.commits(repo, since).decoded.value[k].committerDate).None?
    ensures RepositoryCommits(gh, repo, since) == Failure(DateParseError)
  {
    var items := gh.commits(repo, since).decoded.value;
    var f := (item: RepoCommit) => ToCommit(repo, gh.parse, item);
    assert f(items[k]).Failure?;
    var r := Traverse(items, f);
    var j :| FirstFailureAt(items, f, j, r.error);
  }

  /** `get_commits`: the repositories' commits concatenated in listing
      order; the first failing repository fails the whole call. */
  function GetCommits(gh: GitHub, since: DateTime): (r: Result<seq<Commit>, Error>)
    ensures UserRepositories(gh.repositories).Failure? ==> r == Failure(UserRepositories(gh.repositories).error)
    ensures UserRepositories(gh.repositories).Success? ==>
      var repos := UserRepositories(gh.repositories).value;
      && (r.Success? <==> forall i :: 0 <= i < |repos| ==> RepositoryCommits(gh, repos[i], since).Success?)
      && (r.Success? ==> r.value == Flatten(seq(|repos|, i requires 0 <= i < |repos| => RepositoryCommits(gh, repos[i], since).value)))
      && (r.Failure? ==> exists k :: 0 <= k < |repos| && RepositoryCommits(gh, repos[k], since) == Failure(r.error)
                             && forall i :: 0 <= i < k ==> RepositoryCommits(gh, repos[i], since).Success?)
  {
    var repos :- UserRepositories(gh.repositories);
    var fetch := repo => RepositoryCommits(gh, repo, since);
    var lists :- Traverse(repos, fetch);
    assert lists == seq(|repos|, i requires 0 <= i < |repos| => RepositoryCommits(gh, repos[i], since).value);
    Success(Flatten(lists))
  }

  /** Every commit collected names a listed repository as its origin, and
      is exactly as that repository's listing gave it. */
  lemma GetCommitsProvenance(gh: GitHub, since: DateTime, c: Commit)
    requires GetCommits(gh, since).Success? && c in GetCommits(gh, since).value
    ensures UserRepositories(gh.repositories).Success?
    ensures exists i :: (0 <= i < |UserRepositories(gh.repositories).value|
                         && c.repository == UserRepositories(gh.repositories).value[i]
                         && c in RepositoryCommits(gh, UserRepositories(gh.repositories).value[i], since).value)
  {
    var repos := UserRepositories(gh.repositories).value;
    var lists := seq(|repos|, i requires 0 <= i < |repos| => RepositoryCommits(gh, repos[i], since).value);
    FlattenMembers(lists, c);
    var i :| 0 <= i < |lists| && c in lists[i];
    var k :| 0 <= k < |lists[i]| && lists[i][k] == c;
    assert c.repository == repos[i];
  }
}
