/** Sequence combinators the sync jobs are built from: iterator `filter`,
    `rev`, `flatten`, the all-or-nothing `collect::<Result<Vec<_>, _>>()`,
    and a loop of `?`-calls that stops at the first error. */
module Collections {
  import opened Wrappers

  /** `iter().filter(p)`: the elements satisfying `p`, in order. */
  function Filter<T>(xs: seq<T>, p: T -> bool): (r: seq<T>)
    decreases |xs|
    ensures |r| <= |xs|
    ensures forall i :: 0 <= i < |r| ==> r[i] in xs && p(r[i])
    ensures forall i :: 0 <= i < |xs| && p(xs[i]) ==> xs[i] in r
  {
    if xs == [] then [] else (if p(xs[0]) then [xs[0]] else []) + Filter(xs[1..], p)
  }

  /** What filtering keeps comes from the input and passes. */
  lemma FilterSubset<T>(xs: seq<T>, p: T -> bool)
    ensures forall x :: x in Filter(xs, p) ==> x in xs && p(x)
  {
    forall x | x in Filter(xs, p) ensures x in xs && p(x) {
      var k :| 0 <= k < |Filter(xs, p)| && Filter(xs, p)[k] == x;
    }
  }

  /** Filtering distributes over concatenation, so it keeps relative order. */
  lemma {:induction false} FilterAppend<T>(a: seq<T>, b: seq<T>, p: T -> bool)
    ensures Filter(a + b, p) == Filter(a, p) + Filter(b, p)
    decreases |a|
  {
    if a == [] {
      assert a + b == b;
    } else {
      assert (a + b)[1..] == a[1..] + b;
      FilterAppend(a[1..], b, p);
    }
  }

  /** Filtering keeps every element when all of them pass. */
  lemma {:induction false} FilterAll<T>(xs: seq<T>, p: T -> bool)
    requires forall i :: 0 <= i < |xs| ==> p(xs[i])
    ensures Filter(xs, p) == xs
    decreases |xs|
  {
    if xs != [] {
      FilterAll(xs[1..], p);
      assert xs == [xs[0]] + xs[1..];
    }
  }

  /** Filtering drops everything when nothing passes. */
  lemma {:induction false} FilterNone<T>(xs: seq<T>, p: T -> bool)
    requires forall i :: 0 <= i < |xs| ==> !p(xs[i])
    ensures Filter(xs, p) == []
    decreases |xs|
  {
    if xs != [] {
      FilterNone(xs[1..], p);
    }
  }

  /** Filtering keeps every copy of an element that passes and none of one
      that does not. */
  lemma {:induction false} FilterCount<T>(xs: seq<T>, p: T -> bool, x: T)
    ensures multiset(Filter(xs, p))[x] == if p(x) then multiset(xs)[x] else 0
    decreases |xs|
  {
    if xs != [] {
      FilterCount(xs[1..], p, x);
      assert xs == [xs[0]] + xs[1..];
      assert multiset(xs) == multiset([xs[0]]) + multiset(xs[1..]);
      var head := if p(xs[0]) then [xs[0]] else [];
      assert multiset(Filter(xs, p)) == multiset(head) + multiset(Filter(xs[1..], p));
    }
  }

  /** `iter().rev()`. */
  function Reverse<T>(xs: seq<T>): (r: seq<T>)
    decreases |xs|
    ensures |r| == |xs|
    ensures forall i :: 0 <= i < |xs| ==> r[i] == xs[|xs| - 1 - i]
  {
    if xs == [] then [] else Reverse(xs[1..]) + [xs[0]]
  }

  /** Reversing twice gives the sequence back; reversal keeps the elements. */
  lemma ReverseInvolution<T>(xs: seq<T>)
    ensures Reverse(Reverse(xs)) == xs
    ensures forall i :: 0 <= i < |xs| ==> xs[i] in Reverse(xs)
  {
    var r := Reverse(xs);
    forall i | 0 <= i < |xs| ensures xs[i] in r {
      assert r[|xs| - 1 - i] == xs[i];
    }
  }

  /** Concatenation of a sequence of sequences (`extend` in a loop). */
  function Flatten<T>(xss: seq<seq<T>>): (r: seq<T>)
    decreases |xss|
  {
    if xss == [] then [] else xss[0] + Flatten(xss[1..])
  }

  /** An element of the concatenation belongs to one of the parts, and
      every part's elements are in it. */
  lemma {:induction false} FlattenMembers<T>(xss: seq<seq<T>>, x: T)
    ensures x in Flatten(xss) <==> exists i :: 0 <= i < |xss| && x in xss[i]
    decreases |xss|
  {
    if xss != [] {
      FlattenMembers(xss[1..], x);
      if x in Flatten(xss[1..]) {
        var i :| 0 <= i < |xss[1..]| && x in xss[1..][i];
        assert x in xss[i + 1];
      }
      if exists i :: 0 <= i < |xss| && x in xss[i] {
        var i :| 0 <= i < |xss| && x in xss[i];
        if i > 0 {
          assert x in xss[1..][i - 1];
        }
      }
    }
  }

  /** Concatenating one more part appends exactly that part. */
  lemma {:induction false} FlattenSnoc<T>(xss: seq<seq<T>>, ys: seq<T>)
    ensures Flatten(xss + [ys]) == Flatten(xss) + ys
    decreases |xss|
  {
    if xss == [] {
      assert [] + [ys] == [ys];
    } else {
      assert (xss + [ys])[1..] == xss[1..] + [ys];
      FlattenSnoc(xss[1..], ys);
    }
  }

  /** What a loop of fallible steps produced: the results of the steps that
      succeeded, and the error of the step that stopped it, if any. */
  datatype Partial<T> = Partial(done: seq<T>, stop: Option<Error>)

  /** Runs `f` on each element in order and stops at the first error; the
      results before it stand. */
  function MapUntilFailure<T, U>(xs: seq<T>, f: T -> Result<U, Error>): (r: Partial<U>)
    decreases |xs|
    ensures |r.done| <= |xs|
    ensures forall i :: 0 <= i < |r.done| ==> f(xs[i]) == Success(r.done[i])
    ensures r.stop.None? <==> |r.done| == |xs|
    ensures r.stop.Some? ==> f(xs[|r.done|]) == Failure(r.stop.value)
  {
    if xs == [] then Partial([], None)
    else match f(xs[0])
      case Failure(e) => Partial([], Some(e))
      case Success(y) =>
        var rest := MapUntilFailure(xs[1..], f);
        Partial([y] + rest.done, rest.stop)
  }

  /** The `k`th step is the first to fail, and fails with `e`. */
  predicate FirstFailureAt<T, U>(xs: seq<T>, f: T -> Result<U, Error>, k: int, e: Error) {
    0 <= k < |xs| && f(xs[k]) == Failure(e) && forall i :: 0 <= i < k ==> f(xs[i]).Success?
  }

  /** When the `k`th step is the first to fail, the loop keeps the results
      of the steps before it and stops with that step's error. */
  lemma {:induction false} StopsAtFirstFailure<T, U>(xs: seq<T>, f: T -> Result<U, Error>, k: int, e: Error, ys: seq<U>)
    requires 0 <= k < |xs| && f(xs[k]) == Failure(e)
    requires |ys| == k && forall i :: 0 <= i < k ==> f(xs[i]) == Success(ys[i])
    ensures MapUntilFailure(xs, f) == Partial(ys, Some(e))
    decreases k
  {
    if k > 0 {
      StopsAtFirstFailure(xs[1..], f, k - 1, e, ys[1..]);
      assert ys == [ys[0]] + ys[1..];
    }
  }

  /** `collect::<Result<Vec<_>, _>>()`: all results, or the first error. */
  function Traverse<T, U>(xs: seq<T>, f: T -> Result<U, Error>): (r: Result<seq<U>, Error>)
    ensures r.Success? <==> forall i :: 0 <= i < |xs| ==> f(xs[i]).Success?
    ensures r.Success? ==> |r.value| == |xs|
    ensures r.Success? ==> forall i :: 0 <= i < |xs| ==> f(xs[i]) == Success(r.value[i])
    ensures r.Failure? ==> exists k :: FirstFailureAt(xs, f, k, r.error)
  {
    var p := MapUntilFailure(xs, f);
    match p.stop
    case None => Success(p.done)
    case Some(e) =>
      assert FirstFailureAt(xs, f, |p.done|, e);
      Failure(e)
  }
}
