/** The Beeminder side of every job: the datapoint types of the `beeminder`
    crate, the reads a job makes, and the goal store the writes go to.

    A job first makes its reads and decisions and ends up with a `Plan`: the
    create and delete calls it will make, in order, and the error (if any)
    that ends the job after them.  `Sync` then performs the calls against a
    store; the server may reject any call, and the first rejection ends the
    job with that call's error, as the `?` after every call does. */
module Beeminder {
  import opened Wrappers
  import opened Calendar

  /** `beeminder::types::CreateDatapoint`. */
  datatype CreateDatapoint = CreateDatapoint(
    value: real,
    timestamp: Option<DateTime>,
    daystamp: Option<string>,
    comment: Option<string>,
    requestid: Option<string>)

  /** `beeminder::types::Datapoint`, as a goal stores it. */
  datatype Datapoint = Datapoint(
    id: nat,
    value: real,
    timestamp: DateTime,
    daystamp: string,
    comment: Option<string>,
    requestid: Option<string>)

  /** The arguments of `get_datapoints(goal, sort, count)`. */
  datatype Query = Query(goal: string, sort: Option<string>, count: Option<nat>)

  /** What the server answers to each `get_datapoints` call. */
  type Listing = Query -> Result<seq<Datapoint>, Error>

  /** One write call: `create_datapoint(goal, dp)` or `delete_datapoint(goal, id)`. */
  datatype Op = Create(goal: string, point: CreateDatapoint) | Delete(goal: string, id: nat)

  /** The writes a job will attempt, in order, and how the job ends if all
      of them are accepted (`None` is `Ok(())`). */
  datatype Plan = Plan(ops: seq<Op>, stop: Option<Error>)

  /** A plan that ends before any write, with the error of a failed read. */
  function Abort(e: Error): (p: Plan)
    ensures p.ops == [] && p.stop == Some(e)
  {
    Plan([], Some(e))
  }

  /** The goals of one user, the next fresh datapoint id, and the day the
      server files a timestamp under when a create names no daystamp (it
      depends on the goal's time zone and deadline, kept by the server). */
  datatype Store = Store(goals: map<string, seq<Datapoint>>, nextId: nat, dayOf: DateTime -> string)

  /** The datapoints of a goal; a goal never written to has none. */
  function Points(s: Store, goal: string): seq<Datapoint> {
    if goal in s.goals then s.goals[goal] else []
  }

  /** The ids in use are below `nextId` and distinct within each goal. */
  predicate WellFormed(s: Store) {
    forall g | g in s.goals ::
      (forall i | 0 <= i < |s.goals[g]| :: s.goals[g][i].id < s.nextId)
      && (forall i, j | 0 <= i < j < |s.goals[g]| :: s.goals[g][i].id != s.goals[g][j].id)
  }

  /** The datapoint the server records for a create call.  A missing
      timestamp is the time of the call and a missing daystamp is the day
      the server files the timestamp under; both are assumptions about the
      server. */
  function Stored(p: CreateDatapoint, id: nat, now: DateTime, dayOf: DateTime -> string): (d: Datapoint)
    ensures d.id == id && d.value == p.value
    ensures d.comment == p.comment && d.requestid == p.requestid
    ensures p.timestamp.Some? ==> d.timestamp == p.timestamp.value
    ensures p.timestamp.None? ==> d.timestamp == now
    ensures p.daystamp.Some? ==> d.daystamp == p.daystamp.value
    ensures p.daystamp.None? ==> d.daystamp == dayOf(d.timestamp)
  {
    var t := p.timestamp.GetOr(now);
    Datapoint(id, p.value, t, p.daystamp.GetOr(dayOf(t)), p.comment, p.requestid)
  }

  /** `xs` without the datapoints carrying `id`. */
  function Without(xs: seq<Datapoint>, id: nat): (r: seq<Datapoint>)
    decreases |xs|
    ensures forall d :: d in r <==> d in xs && d.id != id
    ensures |r| <= |xs|
  {
    if xs == [] then []
    else (if xs[0].id == id then [] else [xs[0]]) + Without(xs[1..], id)
  }

  /** An accepted write. */
  function Step(s: Store, op: Op, now: DateTime): (t: Store)
    ensures op.Create? ==> Points(t, op.goal) == Points(s, op.goal) + [Stored(op.point, s.nextId, now, s.dayOf)]
    ensures op.Create? ==> t.nextId == s.nextId + 1
    ensures op.Delete? ==> t.nextId == s.nextId
    ensures t.dayOf == s.dayOf
    ensures op.Delete? ==> forall d :: d in Points(t, op.goal) <==> d in Points(s, op.goal) && d.id != op.id
    ensures forall g :: g != op.goal ==> Points(t, g) == Points(s, g)
  {
    match op
    case Create(g, p) => Store(s.goals[g := Points(s, g) + [Stored(p, s.nextId, now, s.dayOf)]], s.nextId + 1, s.dayOf)
    case Delete(g, id) => Store(s.goals[g := Without(Points(s, g), id)], s.nextId, s.dayOf)
  }

  /** An accepted write keeps the store well formed. */
  lemma StepWellFormed(s: Store, op: Op, now: DateTime)
    requires WellFormed(s)
    ensures WellFormed(Step(s, op, now))
  {
    var t := Step(s, op, now);
    forall g | g in t.goals
      ensures forall i | 0 <= i < |t.goals[g]| :: t.goals[g][i].id < t.nextId
      ensures forall i, j | 0 <= i < j < |t.goals[g]| :: t.goals[g][i].id != t.goals[g][j].id
    {
      assert t.goals[g] == Points(t, g);
      if g != op.goal || op.Create? {
        assert forall i | 0 <= i < |Points(s, g)| :: Points(s, g)[i].id < s.nextId;
      } else {
        WithoutWellFormed(Points(s, g), op.id, s.nextId);
      }
    }
  }

  lemma {:induction false} WithoutWellFormed(xs: seq<Datapoint>, id: nat, bound: nat)
    requires forall i | 0 <= i < |xs| :: xs[i].id < bound
    requires forall i, j | 0 <= i < j < |xs| :: xs[i].id != xs[j].id
    ensures forall i | 0 <= i < |Without(xs, id)| :: Without(xs, id)[i].id < bound
    ensures forall i, j | 0 <= i < j < |Without(xs, id)| :: Without(xs, id)[i].id != Without(xs, id)[j].id
    decreases |xs|
  {
    if xs != [] {
      var r := Without(xs, id);
      var rest := Without(xs[1..], id);
      WithoutWellFormed(xs[1..], id, bound);
      forall i | 0 <= i < |rest| ensures rest[i].id != xs[0].id {
        assert rest[i] in xs[1..];
      }
      forall i | 0 <= i < |r| ensures r[i].id < bound {
        assert r[i] in xs;
      }
    }
  }

  /** The writes of `ops`, all accepted, in order. */
  function Apply(s: Store, ops: seq<Op>, now: DateTime): Store
    decreases |ops|
  {
    if ops == [] then s else Apply(Step(s, ops[0], now), ops[1..], now)
  }

  /** Performing two batches of writes is performing their concatenation. */
  lemma {:induction false} ApplyAppend(s: Store, a: seq<Op>, b: seq<Op>, now: DateTime)
    ensures Apply(s, a + b, now) == Apply(Apply(s, a, now), b, now)
    decreases |a|
  {
    if a == [] {
      assert a + b == b;
    } else {
      assert (a + b)[1..] == a[1..] + b;
      ApplyAppend(Step(s, a[0], now), a[1..], b, now);
    }
  }

  /** Writes to other goals leave a goal alone. */
  lemma {:induction false} ApplyOtherGoals(s: Store, ops: seq<Op>, now: DateTime, g: string)
    requires forall i :: 0 <= i < |ops| ==> ops[i].goal != g
    ensures Points(Apply(s, ops, now), g) == Points(s, g)
    decreases |ops|
  {
    if ops != [] {
      ApplyOtherGoals(Step(s, ops[0], now), ops[1..], now, g);
    }
  }

  /** Accepted writes keep the store well formed and never reuse an id. */
  lemma {:induction false} ApplyWellFormed(s: Store, ops: seq<Op>, now: DateTime)
    requires WellFormed(s)
    ensures WellFormed(Apply(s, ops, now))
    ensures Apply(s, ops, now).nextId >= s.nextId
    ensures Apply(s, ops, now).dayOf == s.dayOf
    decreases |ops|
  {
    if ops != [] {
      StepWellFormed(s, ops[0], now);
      ApplyWellFormed(Step(s, ops[0], now), ops[1..], now);
    }
  }

  /** The datapoints a run of creates records, ids counting up from `first`. */
  function StoredAll(ops: seq<Op>, first: nat, now: DateTime, dayOf: DateTime -> string): (r: seq<Datapoint>)
    requires forall i :: 0 <= i < |ops| ==> ops[i].Create?
    decreases |ops|
    ensures |r| == |ops|
  {
    if ops == [] then [] else [Stored(ops[0].point, first, now, dayOf)] + StoredAll(ops[1..], first + 1, now, dayOf)
  }

  /** The `i`th create records the `i`th datapoint, under id `first + i`. */
  lemma {:induction false} StoredAllIndex(ops: seq<Op>, first: nat, now: DateTime, dayOf: DateTime -> string, i: int)
    requires forall k :: 0 <= k < |ops| ==> ops[k].Create?
    requires 0 <= i < |ops|
    ensures StoredAll(ops, first, now, dayOf)[i] == Stored(ops[i].point, first + i, now, dayOf)
    decreases |ops|
  {
    if i > 0 {
      StoredAllIndex(ops[1..], first + 1, now, dayOf, i - 1);
    }
  }

  /** Creates leave the day rule alone and use one fresh id each. */
  lemma {:induction false} ApplyCreatesIds(s: Store, ops: seq<Op>, now: DateTime)
    requires forall i :: 0 <= i < |ops| ==> ops[i].Create?
    ensures Apply(s, ops, now).nextId == s.nextId + |ops|
    ensures Apply(s, ops, now).dayOf == s.dayOf
    decreases |ops|
  {
    if ops != [] {
      ApplyCreatesIds(Step(s, ops[0], now), ops[1..], now);
    }
  }

  /** Creates only, into one goal: the goal gains exactly the created
      datapoints, in order, with fresh consecutive ids. */
  lemma {:induction false} ApplyCreates(s: Store, ops: seq<Op>, now: DateTime, g: string)
    requires forall i :: 0 <= i < |ops| ==> ops[i].Create? && ops[i].goal == g
    ensures Points(Apply(s, ops, now), g) == Points(s, g) + StoredAll(ops, s.nextId, now, s.dayOf)
    decreases |ops|
  {
    if ops != [] {
      var t := Step(s, ops[0], now);
      var first := Stored(ops[0].point, s.nextId, now, s.dayOf);
      assert Points(t, g) == Points(s, g) + [first];
      ApplyCreates(t, ops[1..], now, g);
      var rest := StoredAll(ops[1..], t.nextId, now, t.dayOf);
      assert StoredAll(ops, s.nextId, now, s.dayOf) == [first] + rest;
      SnocAssoc(Points(s, g), first, rest);
    }
  }

  lemma SnocAssoc<T>(a: seq<T>, x: T, b: seq<T>)
    ensures a + [x] + b == a + ([x] + b)
  {
  }

  /** Creates never remove a datapoint. */
  lemma {:induction false} CreatesKeep(s: Store, ops: seq<Op>, now: DateTime, g: string, d: Datapoint)
    requires forall k :: 0 <= k < |ops| ==> ops[k].Create?
    requires d in Points(s, g)
    ensures d in Points(Apply(s, ops, now), g)
    decreases |ops|
  {
    if ops != [] {
      CreatesKeep(Step(s, ops[0], now), ops[1..], now, g, d);
    }
  }

  /** After a run of creates, the `i`th one's datapoint is in its goal,
      under the `i`th fresh id. */
  lemma {:induction false} CreatesRecorded(s: Store, ops: seq<Op>, now: DateTime, i: int)
    requires forall k :: 0 <= k < |ops| ==> ops[k].Create?
    requires 0 <= i < |ops|
    ensures Stored(ops[i].point, s.nextId + i, now, s.dayOf) in Points(Apply(s, ops, now), ops[i].goal)
    decreases |ops|
  {
    var t := Step(s, ops[0], now);
    if i == 0 {
      assert Stored(ops[0].point, s.nextId, now, s.dayOf) in Points(t, ops[0].goal);
      CreatesKeep(t, ops[1..], now, ops[0].goal, Stored(ops[0].point, s.nextId, now, s.dayOf));
    } else {
      CreatesRecorded(t, ops[1..], now, i - 1);
    }
  }

  /** The index of the first write the server rejects, or `n` if it accepts
      all `n` of them. */
  function FirstRejected(n: nat, rejected: map<nat, Error>): (k: nat)
    ensures k <= n
    ensures forall i :: 0 <= i < k ==> i !in rejected
    ensures k < n ==> k in rejected
  {
    FirstRejectedFrom(0, n, rejected)
  }

  function FirstRejectedFrom(from: nat, n: nat, rejected: map<nat, Error>): (k: nat)
    requires from <= n
    decreases n - from
    ensures from <= k <= n
    ensures forall i :: from <= i < k ==> i !in rejected
    ensures k < n ==> k in rejected
  {
    if from == n || from in rejected then from else FirstRejectedFrom(from + 1, n, rejected)
  }

  /** How a job ended: the store afterwards, how many writes were made, and
      the error the job returned (`None` for `Ok(())`). */
  datatype Outcome = Outcome(store: Store, applied: nat, error: Option<Error>)

  /** Performs a plan: its writes in order until the server rejects one
      (`rejected` maps a write's position to the error it is rejected with).
      The job fails with the rejection, or else with the plan's own error. */
  function Sync(s: Store, plan: Plan, rejected: map<nat, Error>, now: DateTime): (o: Outcome)
    ensures o.applied <= |plan.ops|
    ensures forall i :: 0 <= i < o.applied ==> i !in rejected
    ensures o.store == Apply(s, plan.ops[..o.applied], now)
    ensures o.applied < |plan.ops| ==> o.applied in rejected && o.error == Some(rejected[o.applied])
    ensures o.applied == |plan.ops| ==> o.error == plan.stop
    ensures o.error.None? <==> plan.stop.None? && forall i :: 0 <= i < |plan.ops| ==> i !in rejected
  {
    var k := FirstRejected(|plan.ops|, rejected);
    Outcome(Apply(s, plan.ops[..k], now), k, if k < |plan.ops| then Some(rejected[k]) else plan.stop)
  }

  /** Every write accepted: the store holds the whole plan's effect and the
      job ends as planned. */
  lemma SyncAllAccepted(s: Store, plan: Plan, now: DateTime)
    ensures Sync(s, plan, map[], now) == Outcome(Apply(s, plan.ops, now), |plan.ops|, plan.stop)
  {
    assert plan.ops[..|plan.ops|] == plan.ops;
  }

  /** The server's answer to a read is a window onto the goal: some of its
      datapoints, at most `count` of them when a count is given. */
  predicate IsWindow(s: Store, q: Query, r: seq<Datapoint>) {
    (forall i :: 0 <= i < |r| ==> r[i] in Points(s, q.goal))
    && (q.count.Some? ==> |r| <= q.count.value)
  }

  /** The set of `requestid`s of some datapoints (`filter_map(|dp| dp.requestid)`). */
  function RequestIds(dps: seq<Datapoint>): (r: set<string>)
    ensures forall i :: 0 <= i < |dps| && dps[i].requestid.Some? ==> dps[i].requestid.value in r
    ensures forall id :: id in r ==> exists i :: 0 <= i < |dps| && dps[i].requestid == Some(id)
  {
    set i | 0 <= i < |dps| && dps[i].requestid.Some? :: dps[i].requestid.value
  }

  /** The `requestid`s of two runs of datapoints together. */
  lemma RequestIdsAppend(a: seq<Datapoint>, b: seq<Datapoint>)
    ensures RequestIds(a + b) == RequestIds(a) + RequestIds(b)
  {
    forall id | id in RequestIds(a + b) ensures id in RequestIds(a) + RequestIds(b) {
      var i :| 0 <= i < |a + b| && (a + b)[i].requestid == Some(id);
      if i >= |a| {
        assert b[i - |a|] == (a + b)[i];
      }
    }
    forall id | id in RequestIds(a) ensures id in RequestIds(a + b) {
      var i :| 0 <= i < |a| && a[i].requestid == Some(id);
      assert (a + b)[i] == a[i];
    }
    forall id | id in RequestIds(b) ensures id in RequestIds(a + b) {
      var i :| 0 <= i < |b| && b[i].requestid == Some(id);
      assert (a + b)[|a| + i] == b[i];
    }
  }

  /** The `requestid`s seen through a window are the goal's. */
  lemma WindowRequestIds(s: Store, q: Query, r: seq<Datapoint>)
    requires IsWindow(s, q, r)
    ensures RequestIds(r) <= RequestIds(Points(s, q.goal))
  {
    forall id | id in RequestIds(r) ensures id in RequestIds(Points(s, q.goal)) {
      var i :| 0 <= i < |r| && r[i].requestid == Some(id);
      var k :| 0 <= k < |Points(s, q.goal)| && Points(s, q.goal)[k] == r[i];
    }
  }

  /** The instants of some datapoints' timestamps (`OffsetDateTime`
      equality compares instants, whatever the offsets). */
  function Instants(dps: seq<Datapoint>): (r: set<int>)
    ensures forall i :: 0 <= i < |dps| ==> dps[i].timestamp.unix in r
    ensures forall u :: u in r ==> exists i :: 0 <= i < |dps| && dps[i].timestamp.unix == u
  {
    set i | 0 <= i < |dps| :: dps[i].timestamp.unix
  }

  /** `Some(dp) if dp.value != 0.0 => dp.timestamp, _ => UNIX_EPOCH` over the
      newest datapoint: a job resumes from its newest non-zero datapoint. */
  function Watermark(newest: seq<Datapoint>): (t: DateTime)
    ensures |newest| > 0 && newest[0].value != 0.0 ==> t == newest[0].timestamp
    ensures |newest| == 0 || newest[0].value == 0.0 ==> t == UnixEpoch
  {
    if |newest| > 0 && newest[0].value != 0.0 then newest[0].timestamp else UnixEpoch
  }
}
