/** The ordering of Rust's `String` (lexicographic by Unicode scalar value,
    which is also the byte order of UTF-8) and sorting of distinct strings. */
module Sorting {

  /** `a < b` for strings: lexicographic, a proper prefix first. */
  predicate Below(a: string, b: string)
    decreases |a|
  {
    if |a| == 0 then |b| > 0
    else if |b| == 0 then false
    else if a[0] != b[0] then a[0] < b[0]
    else Below(a[1..], b[1..])
  }

  lemma {:induction false} BelowIrreflexive(a: string)
    ensures !Below(a, a)
    decreases |a|
  {
    if |a| > 0 {
      BelowIrreflexive(a[1..]);
    }
  }

  lemma {:induction false} BelowTransitive(a: string, b: string, c: string)
    requires Below(a, b) && Below(b, c)
    ensures Below(a, c)
    decreases |a|
  {
    if |a| > 0 && a[0] == b[0] && b[0] == c[0] {
      BelowTransitive(a[1..], b[1..], c[1..]);
    }
  }

  /** Any two distinct strings are ordered one way or the other. */
  lemma {:induction false} BelowTotal(a: string, b: string)
    ensures a == b || Below(a, b) || Below(b, a)
    decreases |a|
  {
    if |a| > 0 && |b| > 0 && a[0] == b[0] {
      assert a == [a[0]] + a[1..] && b == [b[0]] + b[1..];
      BelowTotal(a[1..], b[1..]);
    }
  }

  /** Each element strictly below the next: sorted and without duplicates. */
  predicate StrictlySorted(s: seq<string>) {
    forall i :: 0 < i < |s| ==> Below(s[i - 1], s[i])
  }

  /** In a strictly sorted sequence every earlier element is below every later one. */
  lemma {:induction false} SortedBelow(s: seq<string>, i: int, j: int)
    requires StrictlySorted(s) && 0 <= i < j < |s|
    ensures Below(s[i], s[j])
    decreases j - i
  {
    if i + 1 < j {
      SortedBelow(s, i + 1, j);
      BelowTransitive(s[i], s[i + 1], s[j]);
    }
  }

  /** Inserts `x` at its place in a strictly sorted sequence that lacks it. */
  function Insert(x: string, s: seq<string>): (r: seq<string>)
    requires StrictlySorted(s) && x !in s
    decreases |s|
    ensures StrictlySorted(r)
    ensures |r| == |s| + 1
    ensures forall y :: y in r <==> y == x || y in s
  {
    if s == [] then [x]
    else if Below(x, s[0]) then [x] + s
    else
      BelowTotal(x, s[0]);
      var rest := Insert(x, s[1..]);
      HeadBelowRest(s, x, rest[0]);
      [s[0]] + rest
  }

  /** The head of a strictly sorted sequence is below `x` and below every
      other element. */
  lemma HeadBelowRest(s: seq<string>, x: string, y: string)
    requires StrictlySorted(s) && |s| > 0 && Below(s[0], x)
    requires y == x || y in s[1..]
    ensures Below(s[0], y)
  {
    if y != x {
      var k :| 1 <= k < |s| && s[k] == y;
      SortedBelow(s, 0, k);
    }
  }

  /** Sorts strings ascending, keeping one copy of each (`sort` on the
      distinct keys of a map). */
  function SortDistinct(xs: seq<string>): (r: seq<string>)
    decreases |xs|
    ensures StrictlySorted(r)
    ensures forall y :: y in r <==> y in xs
  {
    if xs == [] then []
    else
      var rest := SortDistinct(xs[1..]);
      if xs[0] in rest then rest else Insert(xs[0], rest)
  }

  /** A strictly sorted sequence is determined by its elements: any two
      orderings of the same distinct strings sort to the same sequence. */
  lemma {:induction false} SortedUnique(a: seq<string>, b: seq<string>)
    requires StrictlySorted(a) && StrictlySorted(b)
    requires forall y :: y in a <==> y in b
    ensures a == b
    decreases |a|
  {
    if |a| > 0 {
      assert a[0] in b;
    }
    if |b| > 0 {
      assert b[0] in a;
    }
    if a != [] && b != [] {
      var k :| 0 <= k < |a| && a[k] == b[0];
      NothingBelowHead(a, b[0], k);
      var j :| 0 <= j < |b| && b[j] == a[0];
      NothingBelowHead(b, a[0], j);
      BelowTotal(a[0], b[0]);
      forall y ensures y in a[1..] <==> y in b[1..] {
        DistinctTail(a, y);
        DistinctTail(b, y);
      }
      SortedUnique(a[1..], b[1..]);
      assert a == [a[0]] + a[1..] && b == [b[0]] + b[1..];
    }
  }

  /** No element of a strictly sorted sequence is below its head. */
  lemma NothingBelowHead(s: seq<string>, x: string, k: int)
    requires StrictlySorted(s) && 0 <= k < |s| && s[k] == x
    ensures !Below(x, s[0])
  {
    if k == 0 {
      BelowIrreflexive(x);
    } else {
      SortedBelow(s, 0, k);
      if Below(x, s[0]) {
        BelowTransitive(x, s[0], x);
        BelowIrreflexive(x);
      }
    }
  }

  /** The tail of a strictly sorted sequence holds everything but its head. */
  lemma DistinctTail(s: seq<string>, y: string)
    requires StrictlySorted(s) && |s| > 0
    ensures y in s[1..] <==> y in s && y != s[0]
  {
    if y in s[1..] {
      var k :| 1 <= k < |s| && s[k] == y;
      SortedBelow(s, 0, k);
      if y == s[0] {
        BelowIrreflexive(y);
      }
    }
  }
}
