/** Grouped sums: the `*map.entry(key).or_default() += weight` fold both
    ActivityWatch consumers perform. */
module Totals {
  import opened Wrappers

  /** Folds `xs` left to right into per-key totals; elements without a key
      are skipped. */
  function SumBy<T>(xs: seq<T>, key: T -> Option<string>, weight: T -> real): (m: map<string, real>)
    decreases |xs|
    ensures forall k :: k in m ==> exists i :: 0 <= i < |xs| && key(xs[i]) == Some(k)
    ensures forall i :: 0 <= i < |xs| && key(xs[i]).Some? ==> key(xs[i]).value in m
  {
    if xs == [] then map[]
    else
      var acc := SumBy(xs[..|xs| - 1], key, weight);
      var x := xs[|xs| - 1];
      match key(x)
      case None => acc
      case Some(k) => acc[k := (if k in acc then acc[k] else 0.0) + weight(x)]
  }

  /** The key of every element that has one, in order, repeats kept. */
  function KeysInOrder<T>(xs: seq<T>, key: T -> Option<string>): seq<string>
    decreases |xs|
  {
    if xs == [] then []
    else
      match key(xs[0])
      case None => KeysInOrder(xs[1..], key)
      case Some(k) => [k] + KeysInOrder(xs[1..], key)
  }

  /** The keys listed are exactly the keys of the elements. */
  lemma {:induction false} KeysInOrderMembers<T>(xs: seq<T>, key: T -> Option<string>, k: string)
    ensures k in KeysInOrder(xs, key) <==> exists i :: 0 <= i < |xs| && key(xs[i]) == Some(k)
    decreases |xs|
  {
    if xs != [] {
      var tail := xs[1..];
      KeysInOrderMembers(tail, key, k);
      if k in KeysInOrder(tail, key) {
        var i :| 0 <= i < |tail| && key(tail[i]) == Some(k);
        assert xs[i + 1] == tail[i];
      }
      if i :| 1 <= i < |xs| && key(xs[i]) == Some(k) {
        assert tail[i - 1] == xs[i];
      }
    }
  }

  /** Reference definition: the sum of the weights of the elements with key `k`. */
  function Total<T>(xs: seq<T>, key: T -> Option<string>, weight: T -> real, k: string): real
    decreases |xs|
  {
    if xs == [] then 0.0
    else (if key(xs[0]) == Some(k) then weight(xs[0]) else 0.0) + Total(xs[1..], key, weight, k)
  }

  /** The reference total grows by the last element's weight exactly when it
      carries the key. */
  lemma {:induction false} TotalSnoc<T>(xs: seq<T>, x: T, key: T -> Option<string>, weight: T -> real, k: string)
    ensures Total(xs + [x], key, weight, k)
      == Total(xs, key, weight, k) + (if key(x) == Some(k) then weight(x) else 0.0)
    decreases |xs|
  {
    if xs == [] {
      assert (xs + [x])[1..] == [];
    } else {
      assert (xs + [x])[1..] == xs[1..] + [x];
      TotalSnoc(xs[1..], x, key, weight, k);
    }
  }

  /** Every entry of the fold is the reference total of its key. */
  lemma {:induction false} SumByIsTotal<T>(xs: seq<T>, key: T -> Option<string>, weight: T -> real, k: string)
    requires k in SumBy(xs, key, weight)
    ensures SumBy(xs, key, weight)[k] == Total(xs, key, weight, k)
    decreases |xs|
  {
    var init := xs[..|xs| - 1];
    var x := xs[|xs| - 1];
    assert xs == init + [x];
    TotalSnoc(init, x, key, weight, k);
    var acc := SumBy(init, key, weight);
    if k in acc {
      SumByIsTotal(init, key, weight, k);
    } else {
      assert Total(init, key, weight, k) == 0.0 by {
        TotalWithoutKey(init, key, weight, k);
      }
    }
  }

  /** A key no element carries totals to zero. */
  lemma {:induction false} TotalWithoutKey<T>(xs: seq<T>, key: T -> Option<string>, weight: T -> real, k: string)
    requires forall i :: 0 <= i < |xs| ==> key(xs[i]) != Some(k)
    ensures Total(xs, key, weight, k) == 0.0
    decreases |xs|
  {
    if xs != [] {
      TotalWithoutKey(xs[1..], key, weight, k);
    }
  }

  /** Folding one more element changes only that element's entry, and by
      exactly its weight. */
  lemma SumBySnoc<T>(xs: seq<T>, x: T, key: T -> Option<string>, weight: T -> real)
    ensures var before := SumBy(xs, key, weight);
      var after := SumBy(xs + [x], key, weight);
      && (forall k :: k in before && key(x) != Some(k) ==> k in after && after[k] == before[k])
      && (key(x).Some? ==> after[key(x).value] == (if key(x).value in before then before[key(x).value] else 0.0) + weight(x))
      && (key(x).None? ==> after == before)
  {
    assert (xs + [x])[..|xs + [x]| - 1] == xs;
  }
}
