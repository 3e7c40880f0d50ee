/** Why `clean_view_sync` converges: once a day is reconciled, every
    datapoint the goal holds for that day agrees with the day's verdict, at
    least one exists, and no datapoint of another day was touched. */
module CleanViewReconcile {
  import opened Wrappers
  import opened Calendar
  import opened Collections
  import opened Beeminder
  import opened CleanView

  /** The ids a day's deletions remove. */
  function DeletedIds(day: string, value: real, es: seq<Datapoint>): set<nat>
    decreases |es|
  {
    if es == [] then {}
    else (if es[0].daystamp == day && Differs(value, es[0].value) then {es[0].id} else {})
         + DeletedIds(day, value, es[1..])
  }

  /** An id is deleted exactly when a fetched datapoint of the day carries
      it and differs from the verdict. */
  lemma {:induction false} DeletedIdsMembers(day: string, value: real, es: seq<Datapoint>, id: nat)
    ensures id in DeletedIds(day, value, es)
        <==> exists e :: e in es && e.id == id && e.daystamp == day && Differs(value, e.value)
    decreases |es|
  {
    if es != [] {
      DeletedIdsMembers(day, value, es[1..], id);
      if exists e :: e in es && e.id == id && e.daystamp == day && Differs(value, e.value) {
        var e :| e in es && e.id == id && e.daystamp == day && Differs(value, e.value);
        if e != es[0] {
          assert e in es[1..];
        }
      }
    }
  }

  /** Distinct datapoints of one goal of a well-formed store have distinct ids. */
  lemma DistinctIds(s: Store, goal: string, a: Datapoint, b: Datapoint)
    requires WellFormed(s) && a in Points(s, goal) && b in Points(s, goal) && a != b
    ensures a.id != b.id
  {
    var xs := Points(s, goal);
    var i :| 0 <= i < |xs| && xs[i] == a;
    var j :| 0 <= j < |xs| && xs[j] == b;
    assert goal in s.goals && xs == s.goals[goal];
    if i < j {
      assert xs[i].id != xs[j].id;
    } else {
      assert xs[j].id != xs[i].id;
    }
  }

  /** A day's deletions remove from the goal exactly the datapoints whose
      id is deleted. */
  lemma {:induction false} DeletionsEffect(s: Store, goal: string, day: string, value: real, es: seq<Datapoint>, now: DateTime)
    ensures forall d :: d in Points(Apply(s, Deletions(goal, day, value, es), now), goal)
                    <==> d in Points(s, goal) && d.id !in DeletedIds(day, value, es)
    decreases |es|
  {
    if es != [] {
      var e := es[0];
      var first := if e.daystamp == day && Differs(value, e.value) then [Delete(goal, e.id)] else [];
      var rest := Deletions(goal, day, value, es[1..]);
      assert Deletions(goal, day, value, es) == first + rest;
      ApplyAppend(s, first, rest, now);
      var s1 := Apply(s, first, now);
      if first != [] {
        assert s1 == Step(s, first[0], now);
      }
      DeletionsEffect(s1, goal, day, value, es[1..], now);
    }
  }

  /** A day's deletions leave only datapoints of the day that agree with the
      verdict, keep the fetched ones that agree, and touch no other day. */
  lemma DeletionsAgree(s: Store, goal: string, day: string, value: real, existing: seq<Datapoint>, now: DateTime)
    requires WellFormed(s)
    requires forall e :: e in existing && e.daystamp == day ==> e in Points(s, goal)
    requires forall d :: d in Points(s, goal) && d.daystamp == day ==> d in existing
    ensures var t := Apply(s, Deletions(goal, day, value, existing), now);
      && (forall d :: d in Points(t, goal) && d.daystamp == day ==> !Differs(value, d.value))
      && (forall e :: e in existing && e.daystamp == day && !Differs(value, e.value) ==> e in Points(t, goal))
      && (forall d: Datapoint :: d.daystamp != day ==> (d in Points(t, goal) <==> d in Points(s, goal)))
  {
    var ids := DeletedIds(day, value, existing);
    DeletionsEffect(s, goal, day, value, existing, now);
    forall id ensures id in ids <==> exists e :: e in existing && e.id == id && e.daystamp == day && Differs(value, e.value) {
      DeletedIdsMembers(day, value, existing, id);
    }
    forall d | d in Points(s, goal) && d.daystamp != day ensures d.id !in ids {
      forall e | e in existing && e.daystamp == day ensures e.id != d.id {
        DistinctIds(s, goal, e, d);
      }
    }
    forall e | e in existing && e.daystamp == day && !Differs(value, e.value) ensures e.id !in ids {
      forall x | x in existing && x.daystamp == day && Differs(value, x.value) ensures x.id != e.id {
        DistinctIds(s, goal, x, e);
      }
    }
  }

  /** A day's writes keep the store well formed and leave other goals alone. */
  lemma DayFrame(s: Store, goal: string, day: string, v: Verdict, existing: seq<Datapoint>, now: DateTime)
    requires WellFormed(s)
    ensures var t := Apply(s, DayOps(goal, day, v, existing), now);
      && WellFormed(t) && t.dayOf == s.dayOf
      && (forall g :: g != goal ==> Points(t, g) == Points(s, g))
  {
    var ops := DayOps(goal, day, v, existing);
    ApplyWellFormed(s, ops, now);
    forall g | g != goal ensures Points(Apply(s, ops, now), g) == Points(s, g) {
      ApplyOtherGoals(s, ops, now, g);
    }
  }

  /** One day reconciled.  It needs the fetched datapoints of the day to be
      exactly the goal's datapoints of the day. */
  lemma DayEffect(s: Store, goal: string, day: string, v: Verdict, existing: seq<Datapoint>, now: DateTime)
    requires WellFormed(s)
    requires forall e :: e in existing && e.daystamp == day ==> e in Points(s, goal)
    requires forall d :: d in Points(s, goal) && d.daystamp == day ==> d in existing
    ensures var t := Apply(s, DayOps(goal, day, v, existing), now);
      && WellFormed(t) && t.dayOf == s.dayOf
      && (forall g :: g != goal ==> Points(t, g) == Points(s, g))
      && (forall d :: d in Points(t, goal) && d.daystamp == day ==> !Differs(v.value, d.value))
      && (exists d :: d in Points(t, goal) && d.daystamp == day)
      && (forall d: Datapoint :: d.daystamp != day ==> (d in Points(t, goal) <==> d in Points(s, goal)))
  {
    var ops := DayOps(goal, day, v, existing);
    var dels := Deletions(goal, day, v.value, existing);
    DeletionsAgree(s, goal, day, v.value, existing, now);
    DayFrame(s, goal, day, v, existing, now);
    var t1 := Apply(s, dels, now);
    var create := if Matched(day, v.value, existing) then [] else [Create(goal, Record(day, v))];
    assert ops == dels + create;
    ApplyAppend(s, dels, create, now);
    var t := Apply(t1, create, now);
    if Matched(day, v.value, existing) {
      var e :| e in existing && e.daystamp == day && !Differs(v.value, e.value);
      assert e in Points(t, goal);
    } else {
      assert t == Step(t1, create[0], now);
      var made := Stored(Record(day, v), t1.nextId, now, t1.dayOf);
      assert Points(t, goal) == Points(t1, goal) + [made];
      assert made.daystamp == day && made in Points(t, goal);
    }
  }

  /** Labels that occur once each. */
  predicate Distinct(labels: seq<string>) {
    forall i, j :: 0 <= i < j < |labels| ==> labels[i] != labels[j]
  }

  /** A run of judged days reconciled in order: each day ends up agreeing
      with its verdict, and the datapoints of days outside the run are
      untouched.  It needs the fetched datapoints to be exactly the goal's
      datapoints of those days. */
  lemma {:induction false} DaysEffect(s: Store, goal: string, labels: seq<string>, verdicts: seq<Verdict>,
                                      existing: seq<Datapoint>, now: DateTime)
    requires WellFormed(s) && |verdicts| == |labels| && Distinct(labels)
    requires forall e :: e in existing && e.daystamp in labels ==> e in Points(s, goal)
    requires forall d :: d in Points(s, goal) && d.daystamp in labels ==> d in existing
    ensures var t := Apply(s, DaysOps(goal, labels, verdicts, existing), now);
      && (forall j, d :: 0 <= j < |labels| && d in Points(t, goal) && d.daystamp == labels[j]
            ==> !Differs(verdicts[j].value, d.value))
      && (forall j :: 0 <= j < |labels| ==> exists d :: d in Points(t, goal) && d.daystamp == labels[j])
      && (forall d: Datapoint :: d.daystamp !in labels ==> (d in Points(t, goal) <==> d in Points(s, goal)))
    decreases |verdicts|
  {
    if verdicts != [] {
      var day := labels[0];
      var head := DayOps(goal, day, verdicts[0], existing);
      var tail := DaysOps(goal, labels[1..], verdicts[1..], existing);
      assert DaysOps(goal, labels, verdicts, existing) == head + tail;
      ApplyAppend(s, head, tail, now);
      DayEffect(s, goal, day, verdicts[0], existing, now);
      var s1 := Apply(s, head, now);
      var later := labels[1..];
      DistinctTail(labels);
      DaysEffect(s1, goal, later, verdicts[1..], existing, now);
      var t := Apply(s1, tail, now);
      forall j, d | 0 <= j < |labels| && d in Points(t, goal) && d.daystamp == labels[j]
        ensures !Differs(verdicts[j].value, d.value)
      {
        if j > 0 {
          assert labels[j] == later[j - 1] && verdicts[j] == verdicts[1..][j - 1];
        }
      }
      forall j | 0 <= j < |labels| ensures exists d :: d in Points(t, goal) && d.daystamp == labels[j] {
        if j == 0 {
          var d :| d in Points(s1, goal) && d.daystamp == day;
          assert d in Points(t, goal);
        } else {
          assert labels[j] == later[j - 1];
        }
      }
    }
  }

  /** The first label of a distinct run is not among the rest, which are distinct too. */
  lemma DistinctTail(labels: seq<string>)
    requires Distinct(labels) && |labels| > 0
    ensures labels[0] !in labels[1..] && Distinct(labels[1..])
    ensures forall x :: x in labels <==> x == labels[0] || x in labels[1..]
  {
    assert labels == [labels[0]] + labels[1..];
    forall k | 0 <= k < |labels| - 1 ensures labels[1..][k] != labels[0] {
      assert labels[1..][k] == labels[k + 1];
    }
  }

  /** Only the days judged so far produce writes: two label runs that agree
      on those days give the same writes. */
  lemma {:induction false} DaysOpsSameDays(goal: string, a: seq<string>, b: seq<string>, verdicts: seq<Verdict>,
                                            existing: seq<Datapoint>)
    requires |verdicts| <= |a| && |verdicts| <= |b|
    requires forall i :: 0 <= i < |verdicts| ==> a[i] == b[i]
    ensures DaysOps(goal, a, verdicts, existing) == DaysOps(goal, b, verdicts, existing)
    decreases |verdicts|
  {
    if verdicts != [] {
      assert a[0] == b[0];
      forall i | 0 <= i < |verdicts[1..]| ensures a[1..][i] == b[1..][i] {
        assert a[1..][i] == a[i + 1] && b[1..][i] == b[i + 1];
      }
      DaysOpsSameDays(goal, a[1..], b[1..], verdicts[1..], existing);
    }
  }

  /** Buckets whose dates are from year 0 on carry distinct labels. */
  lemma LabelsDistinct(now: DateTime, lookbackDays: int)
    requires forall j :: 0 <= j < |Buckets(now, lookbackDays)| ==> DateOf(Buckets(now, lookbackDays)[j].end).year >= 0
    ensures Distinct(Labels(Buckets(now, lookbackDays)))
  {
    var bs := Buckets(now, lookbackDays);
    forall i, j | 0 <= i < j < |bs| ensures Labels(bs)[i] != Labels(bs)[j] {
      BucketLabelsDistinct(now, lookbackDays, i, j);
    }
  }

  /** Every write for one day targets the goal. */
  lemma DayOpsGoal(goal: string, day: string, v: Verdict, existing: seq<Datapoint>)
    ensures forall i :: 0 <= i < |DayOps(goal, day, v, existing)| ==> DayOps(goal, day, v, existing)[i].goal == goal
  {
    var dels := Deletions(goal, day, v.value, existing);
    var create := if Matched(day, v.value, existing) then [] else [Create(goal, Record(day, v))];
    var ops := dels + create;
    assert DayOps(goal, day, v, existing) == ops;
    forall i | 0 <= i < |ops| ensures ops[i].goal == goal {
      if i < |dels| {
        assert ops[i] == dels[i];
      } else {
        assert ops[i] == create[i - |dels|];
      }
    }
  }

  /** Every write of the job targets the configured goal. */
  lemma {:induction false} DaysOpsGoal(goal: string, labels: seq<string>, verdicts: seq<Verdict>, existing: seq<Datapoint>)
    requires |verdicts| <= |labels|
    ensures forall i :: 0 <= i < |DaysOps(goal, labels, verdicts, existing)|
                        ==> DaysOps(goal, labels, verdicts, existing)[i].goal == goal
    decreases |verdicts|
  {
    if verdicts != [] {
      var head := DayOps(goal, labels[0], verdicts[0], existing);
      var tail := DaysOps(goal, labels[1..], verdicts[1..], existing);
      DaysOpsGoal(goal, labels[1..], verdicts[1..], existing);
      DayOpsGoal(goal, labels[0], verdicts[0], existing);
      var ops := head + tail;
      assert DaysOps(goal, labels, verdicts, existing) == ops;
      forall i | 0 <= i < |ops| ensures ops[i].goal == goal {
        if i < |head| {
          assert ops[i] == head[i];
        } else {
          assert ops[i] == tail[i - |head|];
        }
      }
    }
  }

  /** A run of judged days that may stop before the last bucket: the days
      judged agree with their verdicts, every other day and every other goal
      is untouched. */
  lemma RunEffect(s: Store, goal: string, labels: seq<string>, verdicts: seq<Verdict>,
                  existing: seq<Datapoint>, now: DateTime)
    requires WellFormed(s) && |verdicts| <= |labels| && Distinct(labels)
    requires forall e :: e in existing ==> e in Points(s, goal)
    requires forall d :: d in Points(s, goal) && d.daystamp in labels ==> d in existing
    ensures var t := Apply(s, DaysOps(goal, labels, verdicts, existing), now);
      && (forall j, d :: 0 <= j < |verdicts| && d in Points(t, goal) && d.daystamp == labels[j]
            ==> !Differs(verdicts[j].value, d.value))
      && (forall j :: 0 <= j < |verdicts| ==> exists d :: d in Points(t, goal) && d.daystamp == labels[j])
      && (forall d: Datapoint :: d.daystamp !in labels ==> (d in Points(t, goal) <==> d in Points(s, goal)))
      && (forall g :: g != goal ==> Points(t, g) == Points(s, g))
  {
    var n := |verdicts|;
    var run := labels[..n];
    var ops := DaysOps(goal, labels, verdicts, existing);
    DaysOpsSameDays(goal, labels, run, verdicts, existing);
    assert Distinct(run);
    assert forall x :: x in run ==> x in labels;
    DaysEffect(s, goal, run, verdicts, existing, now);
    var t := Apply(s, ops, now);
    DaysOpsGoal(goal, labels, verdicts, existing);
    forall g | g != goal ensures Points(t, g) == Points(s, g) {
      ApplyOtherGoals(s, ops, now, g);
    }
    forall j, d | 0 <= j < n && d in Points(t, goal) && d.daystamp == labels[j]
      ensures !Differs(verdicts[j].value, d.value)
    {
      assert labels[j] == run[j];
    }
    forall j | 0 <= j < n ensures exists d :: d in Points(t, goal) && d.daystamp == labels[j] {
      assert labels[j] == run[j];
    }
  }

  /** The job's end state.  When the reads succeed, the fetched datapoints
      are datapoints of the goal, and they include all of the goal's
      datapoints for the days in the lookback window, then once every write
      is accepted: every judged day's datapoints agree with its verdict and
      at least one exists, no datapoint of another day and no other goal is
      touched, and the job ends with the failed judgment, if any. */
  lemma CleanViewConverges(cfg: Config, w: World, now: DateTime, s: Store)
    requires WellFormed(s)
    requires Distinct(Labels(Buckets(now, cfg.lookbackDays)))
    requires Traverse(Buckets(now, cfg.lookbackDays), FetchStep(cfg, w)).Success?
    requires w.listing(ExistingQuery(cfg)).Success?
    requires IsWindow(s, ExistingQuery(cfg), w.listing(ExistingQuery(cfg)).value)
    requires forall d :: d in Points(s, cfg.goal) && d.daystamp in Labels(Buckets(now, cfg.lookbackDays))
                         ==> d in w.listing(ExistingQuery(cfg)).value
    ensures var labels := Labels(Buckets(now, cfg.lookbackDays));
      var judged := MapUntilFailure(Traverse(Buckets(now, cfg.lookbackDays), FetchStep(cfg, w)).value, JudgeStep(cfg, w));
      var o := Sync(s, CleanViewPlan(cfg, w, now), map[], now);
      && o.error == judged.stop
      && (forall j, d :: 0 <= j < |judged.done| && d in Points(o.store, cfg.goal) && d.daystamp == labels[j]
            ==> !Differs(judged.done[j].value, d.value))
      && (forall j :: 0 <= j < |judged.done| ==> exists d :: d in Points(o.store, cfg.goal) && d.daystamp == labels[j])
      && (forall d: Datapoint :: d.daystamp !in labels ==> (d in Points(o.store, cfg.goal) <==> d in Points(s, cfg.goal)))
      && (forall g :: g != cfg.goal ==> Points(o.store, g) == Points(s, g))
  {
    var buckets := Buckets(now, cfg.lookbackDays);
    var labels := Labels(buckets);
    var existing := w.listing(ExistingQuery(cfg)).value;
    var judged := MapUntilFailure(Traverse(buckets, FetchStep(cfg, w)).value, JudgeStep(cfg, w));
    var p := CleanViewPlan(cfg, w, now);
    assert |judged.done| <= |labels|;
    assert p == Plan(DaysOps(cfg.goal, labels, judged.done, existing), judged.stop);
    SyncAllAccepted(s, p, now);
    var o := Sync(s, p, map[], now);
    assert o.store == Apply(s, DaysOps(cfg.goal, labels, judged.done, existing), now);
    assert o.error == judged.stop;
    assert forall e :: e in existing ==> e in Points(s, cfg.goal);
    RunEffect(s, cfg.goal, labels, judged.done, existing, now);
  }
}
