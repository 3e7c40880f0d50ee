/** The shape `category_sync`, `github_sync` and `fatebook_sync` share: the
    records that carry a key the goal does not yet hold as a `requestid` are
    mapped to datapoints and created, newest record first in the fetched
    list, so oldest first on the goal. */
module Dedup {
  import opened Wrappers
  import opened Calendar
  import opened Collections
  import opened Beeminder

  /** A record still to be created: it has a key and the key is unknown. */
  function Unrecorded<T>(key: T -> Option<string>, known: set<string>): T -> bool {
    x => key(x).Some? && key(x).value !in known
  }

  /** The records still to be created, in reverse of the fetched order. */
  function Fresh<T>(items: seq<T>, key: T -> Option<string>, known: set<string>): (r: seq<T>)
    ensures |r| <= |items|
    ensures forall i :: 0 <= i < |r| ==> r[i] in items && key(r[i]).Some? && key(r[i]).value !in known
    ensures forall i :: 0 <= i < |items| && key(items[i]).Some? && key(items[i]).value !in known ==> items[i] in r
  {
    ReversedFilterMembers(items, key, known);
    Reverse(Filter(items, Unrecorded(key, known)))
  }

  lemma ReversedFilterMembers<T>(items: seq<T>, key: T -> Option<string>, known: set<string>)
    ensures var r := Reverse(Filter(items, Unrecorded(key, known)));
      && (forall i :: 0 <= i < |r| ==> r[i] in items && key(r[i]).Some? && key(r[i]).value !in known)
      && (forall i :: 0 <= i < |items| && key(items[i]).Some? && key(items[i]).value !in known ==> items[i] in r)
  {
    var kept := Filter(items, Unrecorded(key, known));
    var r := Reverse(kept);
    forall i | 0 <= i < |items| && key(items[i]).Some? && key(items[i]).value !in known ensures items[i] in r {
      assert Unrecorded(key, known)(items[i]);
      var k :| 0 <= k < |kept| && kept[k] == items[i];
      assert r[|kept| - 1 - k] == items[i];
    }
    forall i | 0 <= i < |r| ensures r[i] in items && key(r[i]).Some? && key(r[i]).value !in known {
      assert r[i] == kept[|kept| - 1 - i];
      assert Unrecorded(key, known)(kept[|kept| - 1 - i]);
    }
  }

  /** Mapping one record and creating the result in `goal`. */
  function CreateStep<T>(goal: string, toPoint: T -> Result<CreateDatapoint, Error>): T -> Result<Op, Error> {
    x => match toPoint(x) case Success(p) => Success(Create(goal, p)) case Failure(e) => Failure(e)
  }

  /** The loop `for x in pending { let dp = to_point(x)?; create(goal, dp)? }`
      as a plan: the creates of the records mapped before the first mapping
      failure, then that failure. */
  function CreatePlan<T>(goal: string, pending: seq<T>, toPoint: T -> Result<CreateDatapoint, Error>): (p: Plan)
    ensures |p.ops| <= |pending|
    ensures forall i :: 0 <= i < |p.ops| ==> toPoint(pending[i]).Success? && p.ops[i] == Create(goal, toPoint(pending[i]).value)
    ensures p.stop.None? <==> |p.ops| == |pending|
    ensures p.stop.Some? ==> toPoint(pending[|p.ops|]) == Failure(p.stop.value)
  {
    CreateStepsMapped(goal, pending, toPoint);
    var made := MapUntilFailure(pending, CreateStep(goal, toPoint));
    Plan(made.done, made.stop)
  }

  lemma CreateStepsMapped<T>(goal: string, pending: seq<T>, toPoint: T -> Result<CreateDatapoint, Error>)
    ensures var made := MapUntilFailure(pending, CreateStep(goal, toPoint));
      && (forall i :: 0 <= i < |made.done| ==>
            toPoint(pending[i]).Success? && made.done[i] == Create(goal, toPoint(pending[i]).value))
      && (made.stop.Some? ==> toPoint(pending[|made.done|]) == Failure(made.stop.value))
  {
    var made := MapUntilFailure(pending, CreateStep(goal, toPoint));
    forall i | 0 <= i < |made.done|
      ensures toPoint(pending[i]).Success? && made.done[i] == Create(goal, toPoint(pending[i]).value)
    {
      assert CreateStep(goal, toPoint)(pending[i]) == Success(made.done[i]);
    }
    if made.stop.Some? {
      assert CreateStep(goal, toPoint)(pending[|made.done|]) == Failure(made.stop.value);
    }
  }

  /** The mapping files every record under its key. */
  predicate KeepsKey<T>(items: seq<T>, key: T -> Option<string>, toPoint: T -> Result<CreateDatapoint, Error>) {
    forall i :: 0 <= i < |items| && toPoint(items[i]).Success? ==> toPoint(items[i]).value.requestid == key(items[i])
  }

  /** No create repeats a known key: every created datapoint carries a
      `requestid`, and none of them is among the known ones. */
  lemma CreatesOnlyUnknown<T>(goal: string, items: seq<T>, key: T -> Option<string>, known: set<string>,
                              toPoint: T -> Result<CreateDatapoint, Error>)
    requires KeepsKey(items, key, toPoint)
    ensures var ops := CreatePlan(goal, Fresh(items, key, known), toPoint).ops;
      forall i :: 0 <= i < |ops| ==>
        && ops[i].Create? && ops[i].goal == goal && ops[i].point.requestid.Some? && ops[i].point.requestid.value !in known
        && exists k :: 0 <= k < |items| && key(items[k]) == ops[i].point.requestid
  {
    var pending := Fresh(items, key, known);
    var ops := CreatePlan(goal, pending, toPoint).ops;
    forall i | 0 <= i < |ops|
      ensures ops[i].Create? && ops[i].goal == goal
      ensures ops[i].point.requestid.Some? && ops[i].point.requestid.value !in known
      ensures exists k :: 0 <= k < |items| && key(items[k]) == ops[i].point.requestid
    {
      assert ops[i].point == toPoint(pending[i]).value;
      var j :| 0 <= j < |items| && items[j] == pending[i];
      assert toPoint(items[j]).value.requestid == key(items[j]);
    }
  }

  /** When every record's key is already known, there is nothing to do. */
  lemma AllKnownCreatesNothing<T>(goal: string, items: seq<T>, key: T -> Option<string>, known: set<string>,
                                  toPoint: T -> Result<CreateDatapoint, Error>)
    requires forall i :: 0 <= i < |items| && key(items[i]).Some? ==> key(items[i]).value in known
    ensures Fresh(items, key, known) == []
    ensures CreatePlan(goal, Fresh(items, key, known), toPoint) == Plan([], None)
  {
    var pending := Fresh(items, key, known);
    if pending != [] {
      assert false;
    }
  }

  /** After the whole plan is accepted and nothing failed to map, every
      record with a key has that key among the goal's `requestid`s, provided
      the known keys were the goal's to begin with. */
  lemma CreatePlanRecordsAll<T>(s: Store, goal: string, items: seq<T>, key: T -> Option<string>,
                                known: set<string>, toPoint: T -> Result<CreateDatapoint, Error>, now: DateTime)
    requires KeepsKey(items, key, toPoint)
    requires known <= RequestIds(Points(s, goal))
    requires CreatePlan(goal, Fresh(items, key, known), toPoint).stop.None?
    ensures var t := Apply(s, CreatePlan(goal, Fresh(items, key, known), toPoint).ops, now);
      forall i :: 0 <= i < |items| && key(items[i]).Some? ==> key(items[i]).value in RequestIds(Points(t, goal))
  {
    var pending := Fresh(items, key, known);
    var ops := CreatePlan(goal, pending, toPoint).ops;
    CreatesOnlyUnknown(goal, items, key, known, toPoint);
    ApplyCreates(s, ops, now, goal);
    var added := StoredAll(ops, s.nextId, now, s.dayOf);
    RequestIdsAppend(Points(s, goal), added);
    forall i | 0 <= i < |items| && key(items[i]).Some? && key(items[i]).value !in known
      ensures key(items[i]).value in RequestIds(added)
    {
      var j :| 0 <= j < |pending| && pending[j] == items[i];
      StoredAllIndex(ops, s.nextId, now, s.dayOf, j);
      assert added[j].requestid == key(items[i]);
    }
  }

  /** With a mapping that never fails, the plan creates every pending
      record, in order, and ends without error. */
  lemma TotalCreatePlan<T>(goal: string, items: seq<T>, key: T -> Option<string>, known: set<string>,
                           toPoint: T -> Result<CreateDatapoint, Error>)
    requires forall x :: x in items ==> toPoint(x).Success?
    ensures var unseen := Filter(items, Unrecorded(key, known));
      var p := CreatePlan(goal, Fresh(items, key, known), toPoint);
      && p.stop.None? && |p.ops| == |unseen|
      && forall i :: 0 <= i < |p.ops| ==> p.ops[i] == Create(goal, toPoint(unseen[|unseen| - 1 - i]).value)
  {
    var unseen := Filter(items, Unrecorded(key, known));
    var pending := Fresh(items, key, known);
    assert pending == Reverse(unseen);
    FilterSubset(items, Unrecorded(key, known));
    TotalCreatePlanReversed(goal, unseen, toPoint);
  }

  /** With a mapping that never fails on them, the records are created
      newest first. */
  lemma TotalCreatePlanReversed<T>(goal: string, unseen: seq<T>, toPoint: T -> Result<CreateDatapoint, Error>)
    requires forall x :: x in unseen ==> toPoint(x).Success?
    ensures var p := CreatePlan(goal, Reverse(unseen), toPoint);
      && p.stop.None? && |p.ops| == |unseen|
      && forall i :: 0 <= i < |p.ops| ==> p.ops[i] == Create(goal, toPoint(unseen[|unseen| - 1 - i]).value)
  {
    var pending := Reverse(unseen);
    var p := CreatePlan(goal, pending, toPoint);
    forall i | 0 <= i < |pending| ensures toPoint(pending[i]).Success? {
      assert pending[i] == unseen[|unseen| - 1 - i];
    }
    assert p.stop.None?;
    forall i | 0 <= i < |p.ops| ensures p.ops[i] == Create(goal, toPoint(unseen[|unseen| - 1 - i]).value) {
      assert pending[i] == unseen[|unseen| - 1 - i];
    }
  }

  /** A record with a key that is unknown is among those created. */
  lemma UnknownIsPending<T>(items: seq<T>, key: T -> Option<string>, known: set<string>, i: int)
    requires 0 <= i < |items| && key(items[i]).Some? && key(items[i]).value !in known
    ensures items[i] in Filter(items, Unrecorded(key, known))
  {
    assert Unrecorded(key, known)(items[i]);
  }
}
