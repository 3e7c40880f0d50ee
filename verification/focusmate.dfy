/** `focusmate_sync`: every completed Focusmate session since the goal's
    newest non-zero datapoint becomes a datapoint, recognised on later runs
    by its start time, and is copied into every goal named by a `#tag` in
    its title that the configuration lists. */
module FocusmateSync {
  import opened Wrappers
  import opened Calendar
  import opened Daystamps
  import opened Text
  import opened Collections
  import opened Beeminder

  /** The fields of `focusmate::Session` the job reads; `completed` is what
      `Session::completed` answers. */
  datatype Session = Session(startTime: DateTime, durationMillis: nat, users: seq<User>, completed: bool)

  /** A session participant; the first one is the user. */
  datatype User = User(sessionTitle: Option<string>)

  /** The Focusmate service: the sessions in a time window, and the name of
      a session's partner (`get_partner_profile`). */
  datatype Focusmate = Focusmate(
    sessions: (DateTime, DateTime) -> Result<seq<Session>, Error>,
    partner: Session -> Result<string, Error>)

  /** `FocusmateSync` without the credentials. */
  datatype Config = Config(goal: string, autoTags: seq<string>)

  const NoProfile: Error := Failed("Could not get me profile.")
  const UnknownPartner: string := "unknown partner"

  /** Whether the comment carries `#tag`. */
  function Tagged(comment: string): string -> bool {
    tag => Contains(comment, "#" + tag)
  }

  /** `find_matching_tags`: the configured tags the comment carries, in
      configuration order, each as often as it is configured. */
  function FindMatchingTags(tags: seq<string>, comment: string): (r: seq<string>)
    ensures forall i :: 0 <= i < |r| ==> r[i] in tags && Contains(comment, "#" + r[i])
    ensures forall i :: 0 <= i < |tags| && Contains(comment, "#" + tags[i]) ==> tags[i] in r
  {
    assert forall i :: 0 <= i < |tags| && Contains(comment, "#" + tags[i]) ==> Tagged(comment)(tags[i]);
    Filter(tags, Tagged(comment))
  }

  /** A tag the comment carries is kept with all its repetitions, any
      other tag not at all. */
  lemma MatchingTagsKeepRepeats(tags: seq<string>, comment: string, tag: string)
    ensures multiset(FindMatchingTags(tags, comment))[tag]
            == if Contains(comment, "#" + tag) then multiset(tags)[tag] else 0
  {
    FilterCount(tags, Tagged(comment), tag);
  }

  /** `get_session_title`: the first participant's session title, empty
      when there is none; no participants is an error. */
  function SessionTitle(s: Session): (r: Result<string, Error>)
    ensures r.Failure? <==> s.users == []
    ensures r.Failure? ==> r.error == NoProfile
    ensures r.Success? ==> r.value == s.users[0].sessionTitle.GetOr("")
  {
    if s.users == [] then Failure(NoProfile) else Success(s.users[0].sessionTitle.GetOr(""))
  }

  /** `"{weekday}, {HH}:{MM} (UTC)"` of the start time. */
  function StartLabel(t: DateTime): string {
    WeekdayName(t) + ", " + FormatPadded(Hour(t), 2) + ":" + FormatPadded(Minute(t), 2) + " (UTC)"
  }

  /** The clock time in the label reads back: two digits of hours and two of
      minutes after the weekday. */
  lemma StartLabelReadsBack(t: DateTime)
    ensures var hh := FormatPadded(Hour(t), 2);
      var mm := FormatPadded(Minute(t), 2);
      && StartLabel(t) == WeekdayName(t) + ", " + hh + ":" + mm + " (UTC)"
      && |hh| == 2 && AllDigits(hh) && ValueOf(hh) == Hour(t)
      && |mm| == 2 && AllDigits(mm) && ValueOf(mm) == Minute(t)
  {
    assert Pow10(2) == 100 by {
      assert Pow10(1) == 10;
    }
    FormatPaddedWidth(Hour(t), 2);
    FormatPaddedWidth(Minute(t), 2);
    FormatPaddedRoundTrip(Hour(t), 2);
    FormatPaddedRoundTrip(Minute(t), 2);
  }

  /** The datapoint comment: when, what, with whom, and for how many whole
      minutes. */
  function SessionComment(s: Session, title: string, partner: string): string {
    StartLabel(s.startTime) + ", " + title + " with " + partner + " for " + Decimal(s.durationMillis / 60000) + " mins"
  }

  /** The partner's name, or a stand-in when the profile cannot be read. */
  function PartnerName(partner: Result<string, Error>): (r: string)
    ensures partner.Success? ==> r == partner.value
    ensures partner.Failure? ==> r == UnknownPartner
  {
    match partner
    case Success(name) => name
    case Failure(_) => UnknownPartner
  }

  /** `session_to_datapoint`: one unit at the start time, with no
      `requestid`; only a session without participants fails. */
  function SessionToDatapoint(s: Session, partner: Result<string, Error>): (r: Result<CreateDatapoint, Error>)
    ensures r.Failure? <==> s.users == []
    ensures r.Failure? ==> r.error == NoProfile
    ensures r.Success? ==>
      && r.value.value == 1.0 && r.value.requestid.None?
      && r.value.timestamp == Some(s.startTime)
      && r.value.daystamp == Some(DaystampOf(s.startTime))
      && r.value.comment == Some(SessionComment(s, SessionTitle(s).value, PartnerName(partner)))
  {
    var title :- SessionTitle(s);
    var comment := SessionComment(s, title, PartnerName(partner));
    Success(CreateDatapoint(1.0, Some(s.startTime), Some(DaystampOf(s.startTime)), Some(comment), None))
  }

  /** One create per tag, of the same datapoint. */
  function TagCreates(tags: seq<string>, dp: CreateDatapoint): (r: seq<Op>)
    ensures |r| == |tags|
    ensures forall j :: 0 <= j < |tags| ==> r[j] == Create(tags[j], dp)
  {
    seq(|tags|, j requires 0 <= j < |tags| => Create(tags[j], dp))
  }

  /** A datapoint in the goal, then a copy in each tagged goal. */
  function CopyOps(goal: string, tags: seq<string>, dp: CreateDatapoint): (r: seq<Op>)
    ensures |r| == 1 + |tags|
    ensures r[0] == Create(goal, dp)
    ensures forall j :: 0 <= j < |tags| ==> r[1 + j] == Create(tags[j], dp)
    ensures forall k :: 0 <= k < |r| ==> r[k].Create? && r[k].point == dp
  {
    [Create(goal, dp)] + TagCreates(tags, dp)
  }

  /** The writes for one session: the datapoint in the goal, then a copy in
      each goal its comment tags. */
  function SessionOps(cfg: Config, fm: Focusmate, s: Session): (r: Result<seq<Op>, Error>)
    ensures r.Failure? <==> s.users == []
    ensures r.Failure? ==> r.error == NoProfile
    ensures r.Success? ==>
      var dp := SessionToDatapoint(s, fm.partner(s)).value;
      r.value == CopyOps(cfg.goal, FindMatchingTags(cfg.autoTags, dp.comment.value), dp)
  {
    var dp :- SessionToDatapoint(s, fm.partner(s));
    Success(CopyOps(cfg.goal, FindMatchingTags(cfg.autoTags, dp.comment.value), dp))
  }

  /** Running the writes of one session, as a step of the loop. */
  function SessionStep(cfg: Config, fm: Focusmate): Session -> Result<seq<Op>, Error> {
    (s: Session) => SessionOps(cfg, fm, s)
  }

  /** A session to record: completed, and starting at an instant no fetched
      datapoint has. */
  function IsNew(known: set<int>): Session -> bool {
    (s: Session) => s.completed && s.startTime.unix !in known
  }

  /** The read of the newest datapoint. */
  function NewestQuery(cfg: Config): Query {
    Query(cfg.goal, Some("timestamp"), Some(1))
  }

  /** The read of as many datapoints as there are fetched sessions. */
  function ExistingQuery(cfg: Config, n: nat): Query {
    Query(cfg.goal, Some("timestamp"), Some(n))
  }

  /** The sessions of the window the job reads: from the watermark to a day
      after `now`, in UTC. */
  function FetchSessions(fm: Focusmate, newest: seq<Datapoint>, now: DateTime): Result<seq<Session>, Error> {
    fm.sessions(Watermark(newest), AddDays(Utc(now), 1))
  }

  /** The sessions the job writes, in fetched order. */
  function NewSessions(sessions: seq<Session>, existing: seq<Datapoint>): (r: seq<Session>)
    ensures |r| <= |sessions|
    ensures forall i :: 0 <= i < |r| ==> r[i] in sessions && r[i].completed && r[i].startTime.unix !in Instants(existing)
    ensures forall i :: 0 <= i < |sessions| && sessions[i].completed && sessions[i].startTime.unix !in Instants(existing) ==>
      sessions[i] in r
  {
    var keep := IsNew(Instants(existing));
    assert forall i :: 0 <= i < |sessions| && sessions[i].completed && sessions[i].startTime.unix !in Instants(existing) ==>
      keep(sessions[i]);
    Filter(sessions, keep)
  }

  /** The job's reads and decisions; `now` is the clock reading. */
  function FocusmatePlan(cfg: Config, fm: Focusmate, listing: Listing, now: DateTime): (p: Plan)
    ensures listing(NewestQuery(cfg)).Failure? ==> p == Abort(listing(NewestQuery(cfg)).error)
    ensures listing(NewestQuery(cfg)).Success? ==>
      var sessions := FetchSessions(fm, listing(NewestQuery(cfg)).value, now);
      && (sessions.Failure? ==> p == Abort(sessions.error))
      && (sessions.Success? && listing(ExistingQuery(cfg, |sessions.value|)).Failure? ==>
            p == Abort(listing(ExistingQuery(cfg, |sessions.value|)).error))
      && (sessions.Success? && listing(ExistingQuery(cfg, |sessions.value|)).Success? ==>
            var made := MapUntilFailure(NewSessions(sessions.value, listing(ExistingQuery(cfg, |sessions.value|)).value),
                                        SessionStep(cfg, fm));
            p == Plan(Flatten(made.done), made.stop))
  {
    match listing(NewestQuery(cfg))
    case Failure(e) => Abort(e)
    case Success(newest) =>
      match FetchSessions(fm, newest, now)
      case Failure(e) => Abort(e)
      case Success(sessions) =>
        match listing(ExistingQuery(cfg, |sessions|))
        case Failure(e) => Abort(e)
        case Success(existing) =>
          var made := MapUntilFailure(NewSessions(sessions, existing), SessionStep(cfg, fm));
          Plan(Flatten(made.done), made.stop)
  }


  /** Each loop step's writes are creates. */
  lemma {:induction false} StepsOnlyCreate(cfg: Config, fm: Focusmate, pending: seq<Session>)
    ensures forall i :: 0 <= i < |Flatten(MapUntilFailure(pending, SessionStep(cfg, fm)).done)| ==>
      Flatten(MapUntilFailure(pending, SessionStep(cfg, fm)).done)[i].Create?
  {
    var made := MapUntilFailure(pending, SessionStep(cfg, fm));
    var ops := Flatten(made.done);
    forall i | 0 <= i < |ops| ensures ops[i].Create? {
      FlattenMembers(made.done, ops[i]);
      var k :| 0 <= k < |made.done| && ops[i] in made.done[k];
      assert SessionStep(cfg, fm)(pending[k]) == Success(made.done[k]);
      var j :| 0 <= j < |made.done[k]| && made.done[k][j] == ops[i];
    }
  }

  /** Once the reads succeed, the job writes the completed sessions that
      start at an instant no fetched datapoint has, in fetched order, each
      in the goal and then in its tagged goals; it only creates, and the
      only way it can stop early is a session without participants. */
  lemma FocusmateWritesNewSessions(cfg: Config, fm: Focusmate, listing: Listing, now: DateTime)
    requires listing(NewestQuery(cfg)).Success?
    requires FetchSessions(fm, listing(NewestQuery(cfg)).value, now).Success?
    requires listing(ExistingQuery(cfg, |FetchSessions(fm, listing(NewestQuery(cfg)).value, now).value|)).Success?
    ensures var sessions := FetchSessions(fm, listing(NewestQuery(cfg)).value, now).value;
      var pending := NewSessions(sessions, listing(ExistingQuery(cfg, |sessions|)).value);
      var made := MapUntilFailure(pending, SessionStep(cfg, fm));
      var p := FocusmatePlan(cfg, fm, listing, now);
      && p.ops == Flatten(made.done)
      && (forall i :: 0 <= i < |p.ops| ==> p.ops[i].Create?)
      && (forall k :: 0 <= k < |made.done| ==>
            var dp := SessionToDatapoint(pending[k], fm.partner(pending[k])).value;
            made.done[k] == CopyOps(cfg.goal, FindMatchingTags(cfg.autoTags, dp.comment.value), dp))
      && (p.stop.None? <==> forall k :: 0 <= k < |pending| ==> pending[k].users != [])
      && (p.stop.Some? ==> p.stop == Some(NoProfile) && pending[|made.done|].users == [])
  {
    var sessions := FetchSessions(fm, listing(NewestQuery(cfg)).value, now).value;
    var pending := NewSessions(sessions, listing(ExistingQuery(cfg, |sessions|)).value);
    var made := MapUntilFailure(pending, SessionStep(cfg, fm));
    StepsOnlyCreate(cfg, fm, pending);
    forall k | 0 <= k < |made.done|
      ensures var dp := SessionToDatapoint(pending[k], fm.partner(pending[k])).value;
        made.done[k] == CopyOps(cfg.goal, FindMatchingTags(cfg.autoTags, dp.comment.value), dp)
    {
      assert SessionStep(cfg, fm)(pending[k]) == Success(made.done[k]);
    }
    if made.stop.Some? {
      assert SessionStep(cfg, fm)(pending[|made.done|]) == Failure(made.stop.value);
    }
  }

  /** After a run of creates made of groups, the instant of the datapoint
      opening a group is among the instants of that create's goal. */
  lemma GroupHeadRecorded(s: Store, groups: seq<seq<Op>>, now: DateTime, goal: string, k: int, dp: CreateDatapoint)
    requires forall i :: 0 <= i < |Flatten(groups)| ==> Flatten(groups)[i].Create?
    requires 0 <= k < |groups| && |groups[k]| > 0 && groups[k][0] == Create(goal, dp) && dp.timestamp.Some?
    ensures dp.timestamp.value.unix in Instants(Points(Apply(s, Flatten(groups), now), goal))
  {
    var ops := Flatten(groups);
    var t := Apply(s, ops, now);
    FlattenMembers(groups, Create(goal, dp));
    var i :| 0 <= i < |ops| && ops[i] == Create(goal, dp);
    CreatesRecorded(s, ops, now, i);
    var d := Stored(dp, s.nextId + i, now, s.dayOf);
    var m :| 0 <= m < |Points(t, goal)| && Points(t, goal)[m] == d;
  }

  /** After the writes of a wholly mapped and accepted run, every pending
      session starts at an instant of one of the goal's datapoints. */
  lemma WrittenSessionRecorded(cfg: Config, fm: Focusmate, pending: seq<Session>, s: Store, now: DateTime, x: Session)
    requires MapUntilFailure(pending, SessionStep(cfg, fm)).stop.None?
    requires x in pending
    ensures var t := Apply(s, Flatten(MapUntilFailure(pending, SessionStep(cfg, fm)).done), now);
      x.startTime.unix in Instants(Points(t, cfg.goal))
  {
    var k :| 0 <= k < |pending| && pending[k] == x;
    var made := MapUntilFailure(pending, SessionStep(cfg, fm));
    StepsOnlyCreate(cfg, fm, pending);
    assert SessionStep(cfg, fm)(pending[k]) == Success(made.done[k]);
    var dp := SessionToDatapoint(pending[k], fm.partner(pending[k])).value;
    assert made.done[k][0] == Create(cfg.goal, dp);
    GroupHeadRecorded(s, made.done, now, cfg.goal, k, dp);
  }

  /** No session is new when every completed one starts at a known instant. */
  lemma NoNewSessions(sessions: seq<Session>, dps: seq<Datapoint>)
    requires forall i :: 0 <= i < |sessions| && sessions[i].completed ==> sessions[i].startTime.unix in Instants(dps)
    ensures NewSessions(sessions, dps) == []
  {
    var keep := IsNew(Instants(dps));
    assert forall i :: 0 <= i < |sessions| ==> !keep(sessions[i]);
    FilterNone(sessions, keep);
  }

  /** Creates keep every instant the goal already had. */
  lemma KnownInstantKept(s: Store, ops: seq<Op>, now: DateTime, goal: string, existing: seq<Datapoint>, x: int)
    requires forall i :: 0 <= i < |ops| ==> ops[i].Create?
    requires forall k :: 0 <= k < |existing| ==> existing[k] in Points(s, goal)
    requires x in Instants(existing)
    ensures x in Instants(Points(Apply(s, ops, now), goal))
  {
    var t := Apply(s, ops, now);
    var k :| 0 <= k < |existing| && existing[k].timestamp.unix == x;
    CreatesKeep(s, ops, now, goal, existing[k]);
    var m :| 0 <= m < |Points(t, goal)| && Points(t, goal)[m] == existing[k];
  }

  /** After a wholly mapped and accepted run, the `i`th fetched session, if
      completed, starts at an instant of one of the goal's datapoints:
      either one that was there before or the one the run wrote. */
  lemma CompletedSessionRecorded(cfg: Config, fm: Focusmate, sessions: seq<Session>, existing: seq<Datapoint>,
                                 s: Store, now: DateTime, i: int)
    requires forall k :: 0 <= k < |existing| ==> existing[k] in Points(s, cfg.goal)
    requires MapUntilFailure(NewSessions(sessions, existing), SessionStep(cfg, fm)).stop.None?
    requires 0 <= i < |sessions| && sessions[i].completed
    ensures var t := Apply(s, Flatten(MapUntilFailure(NewSessions(sessions, existing), SessionStep(cfg, fm)).done), now);
      sessions[i].startTime.unix in Instants(Points(t, cfg.goal))
  {
    var pending := NewSessions(sessions, existing);
    var ops := Flatten(MapUntilFailure(pending, SessionStep(cfg, fm)).done);
    StepsOnlyCreate(cfg, fm, pending);
    if sessions[i].startTime.unix in Instants(existing) {
      KnownInstantKept(s, ops, now, cfg.goal, existing, sessions[i].startTime.unix);
    } else {
      WrittenSessionRecorded(cfg, fm, pending, s, now, sessions[i]);
    }
  }

  /** After a wholly mapped and accepted run, every completed session
      fetched starts at an instant of one of the goal's datapoints. */
  lemma CompletedSessionsRecorded(cfg: Config, fm: Focusmate, sessions: seq<Session>, existing: seq<Datapoint>,
                                  s: Store, now: DateTime)
    requires forall k :: 0 <= k < |existing| ==> existing[k] in Points(s, cfg.goal)
    requires MapUntilFailure(NewSessions(sessions, existing), SessionStep(cfg, fm)).stop.None?
    ensures var t := Apply(s, Flatten(MapUntilFailure(NewSessions(sessions, existing), SessionStep(cfg, fm)).done), now);
      forall i :: 0 <= i < |sessions| && sessions[i].completed ==> sessions[i].startTime.unix in Instants(Points(t, cfg.goal))
  {
    forall i | 0 <= i < |sessions| && sessions[i].completed
      ensures sessions[i].startTime.unix in
        Instants(Points(Apply(s, Flatten(MapUntilFailure(NewSessions(sessions, existing), SessionStep(cfg, fm)).done), now), cfg.goal))
    {
      CompletedSessionRecorded(cfg, fm, sessions, existing, s, now, i);
    }
  }

  /** A rerun over the same sessions writes nothing once the first run was
      wholly mapped and accepted, provided the rerun's datapoint window (a
      window onto the goal the first run left) shows each fetched session's
      instant that the goal then has; both windows hold at most as many
      datapoints as there are sessions.  Tagged goals are not consulted: the
      dedup rests on the goal alone. */
  lemma FocusmateRerunCreatesNothing(cfg: Config, fm: Focusmate, listing: Listing, again: Listing,
                                     now: DateTime, later: DateTime, s: Store)
    requires listing(NewestQuery(cfg)).Success?
    requires FetchSessions(fm, listing(NewestQuery(cfg)).value, now).Success?
    requires var n := |FetchSessions(fm, listing(NewestQuery(cfg)).value, now).value|;
      listing(ExistingQuery(cfg, n)).Success? && IsWindow(s, ExistingQuery(cfg, n), listing(ExistingQuery(cfg, n)).value)
    requires FocusmatePlan(cfg, fm, listing, now).stop.None?
    requires again(NewestQuery(cfg)).Success?
    requires FetchSessions(fm, again(NewestQuery(cfg)).value, later) == FetchSessions(fm, listing(NewestQuery(cfg)).value, now)
    requires var sessions := FetchSessions(fm, listing(NewestQuery(cfg)).value, now).value;
      var q := ExistingQuery(cfg, |sessions|);
      var after := Sync(s, FocusmatePlan(cfg, fm, listing, now), map[], now).store;
      && again(q).Success? && IsWindow(after, q, again(q).value)
      && forall i :: 0 <= i < |sessions| && sessions[i].startTime.unix in Instants(Points(after, cfg.goal)) ==>
           sessions[i].startTime.unix in Instants(again(q).value)
    ensures FocusmatePlan(cfg, fm, again, later) == Plan([], None)
  {
    var sessions := FetchSessions(fm, listing(NewestQuery(cfg)).value, now).value;
    var n := |sessions|;
    var existing := listing(ExistingQuery(cfg, n)).value;
    var p := FocusmatePlan(cfg, fm, listing, now);
    var made := MapUntilFailure(NewSessions(sessions, existing), SessionStep(cfg, fm));
    assert p == Plan(Flatten(made.done), made.stop);
    SyncAllAccepted(s, p, now);
    CompletedSessionsRecorded(cfg, fm, sessions, existing, s, now);
    NoNewSessions(sessions, again(ExistingQuery(cfg, n)).value);
  }
}
