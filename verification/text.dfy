/** The string operations of Rust's `str` that the sync jobs use: substring
    search (`contains`, `find`, `split_once`), `replace`, `join`, `trim` and
    `lines`.  Strings are sequences of Unicode scalar values, as Rust's are. */
module Text {
  import opened Wrappers

  /** `pat` occurs in `s` starting at index `i`. */
  predicate StartsAt(s: string, pat: string, i: int) {
    0 <= i && i + |pat| <= |s| && s[i..i + |pat|] == pat
  }

  /** `str::contains` with a string pattern. */
  predicate Contains(s: string, pat: string) {
    exists i :: 0 <= i <= |s| && StartsAt(s, pat, i)
  }

  /** Searches for `pat` from index `from` on. */
  function IndexFrom(s: string, pat: string, from: nat): (r: Option<nat>)
    requires from <= |s|
    decreases |s| - from
    ensures r.Some? ==> from <= r.value && StartsAt(s, pat, r.value)
    ensures r.Some? ==> forall j :: from <= j < r.value ==> !StartsAt(s, pat, j)
    ensures r.None? ==> forall j :: from <= j <= |s| ==> !StartsAt(s, pat, j)
  {
    if StartsAt(s, pat, from) then Some(from)
    else if from == |s| then None
    else IndexFrom(s, pat, from + 1)
  }

  /** `str::find`: the index of the leftmost occurrence of `pat`. */
  function IndexOf(s: string, pat: string): (r: Option<nat>)
    ensures r.Some? <==> Contains(s, pat)
    ensures r.Some? ==> StartsAt(s, pat, r.value)
    ensures r.Some? ==> forall j :: 0 <= j < r.value ==> !StartsAt(s, pat, j)
  {
    IndexFrom(s, pat, 0)
  }

  /** `str::split_once`: the text before and after the leftmost occurrence. */
  function SplitOnce(s: string, pat: string): (r: Option<(string, string)>)
    ensures r.None? <==> !Contains(s, pat)
    ensures r.Some? ==> s == r.value.0 + pat + r.value.1
    ensures r.Some? ==> forall j :: 0 <= j < |r.value.0| ==> !StartsAt(s, pat, j)
  {
    match IndexOf(s, pat)
    case None => None
    case Some(i) =>
      assert s == s[..i] + pat + s[i + |pat|..] by {
        assert s[i..i + |pat|] == pat;
        assert s == s[..i] + s[i..i + |pat|] + s[i + |pat|..];
      }
      Some((s[..i], s[i + |pat|..]))
  }

  /** `str::replace`, written as the left-to-right scan the standard library
      performs: each occurrence found is replaced and scanning resumes after
      it.  An empty pattern matches before every character and at the end. */
  function Replace(s: string, pat: string, rep: string): string
    decreases |s|
  {
    if pat == [] then
      (if s == [] then rep else rep + [s[0]] + Replace(s[1..], pat, rep))
    else if |s| < |pat| then s
    else if s[..|pat|] == pat then rep + Replace(s[|pat|..], pat, rep)
    else [s[0]] + Replace(s[1..], pat, rep)
  }

  lemma StartsAtTail(s: string, pat: string, j: int)
    requires |s| > 0 && 0 <= j
    ensures StartsAt(s[1..], pat, j) <==> StartsAt(s, pat, j + 1)
  {
    if 0 <= j && j + |pat| <= |s| - 1 {
      assert s[1..][j..j + |pat|] == s[j + 1..j + 1 + |pat|];
    }
  }

  lemma ShortHasNoMatch(s: string, pat: string)
    requires |s| < |pat|
    ensures !Contains(s, pat)
  {
  }

  /** When `s` does not start with `pat`, the leftmost occurrence in `s` is
      one past the leftmost occurrence in `s[1..]`. */
  lemma IndexOfTail(s: string, pat: string)
    requires |s| > 0 && !StartsAt(s, pat, 0)
    ensures Contains(s, pat) <==> Contains(s[1..], pat)
    ensures Contains(s, pat) ==> IndexOf(s, pat).value == IndexOf(s[1..], pat).value + 1
  {
    var t := s[1..];
    if Contains(s, pat) {
      var i := IndexOf(s, pat).value;
      StartsAtTail(s, pat, i - 1);
      assert Contains(t, pat);
      var k := IndexOf(t, pat).value;
      StartsAtTail(s, pat, k);
      assert k <= i - 1;
      assert k + 1 >= i;
    } else {
      forall j | 0 <= j <= |t|
        ensures !StartsAt(t, pat, j)
      {
        StartsAtTail(s, pat, j);
      }
    }
  }

  /** Where the pattern does not start, `Replace` keeps the first character. */
  lemma ReplaceKeepsHead(s: string, pat: string, rep: string)
    requires pat != [] && |s| >= |pat| && !StartsAt(s, pat, 0)
    ensures Replace(s, pat, rep) == [s[0]] + Replace(s[1..], pat, rep)
  {
    assert s[..|pat|] != pat;
  }

  /** Extending a prefix by the next character. */
  lemma PrefixSnoc(s: string, j: int)
    requires 1 <= j <= |s|
    ensures s[..j - 1] + [s[j - 1]] == s[..j]
  {
  }

  /** Concatenation is associative. */
  lemma AppendAssoc(a: string, b: string, c: string)
    ensures a + (b + c) == (a + b) + c
  {
  }

  /** Before the first occurrence, `Replace` copies the text. */
  lemma {:induction false} ReplaceKeepsPrefix(s: string, pat: string, rep: string, j: nat)
    requires pat != [] && j + |pat| <= |s|
    requires forall m :: 0 <= m < j ==> !StartsAt(s, pat, m)
    ensures Replace(s, pat, rep) == s[..j] + Replace(s[j..], pat, rep)
    decreases j
  {
    if j > 0 {
      ReplaceKeepsPrefix(s, pat, rep, j - 1);
      var u := s[j - 1..];
      assert !StartsAt(s, pat, j - 1);
      assert u[0..|pat|] == s[j - 1..j - 1 + |pat|];
      assert !StartsAt(u, pat, 0);
      ReplaceKeepsHead(u, pat, rep);
      assert u[1..] == s[j..];
      PrefixSnoc(s, j);
      AppendAssoc(s[..j - 1], [s[j - 1]], Replace(s[j..], pat, rep));
    }
  }

  /** Text without the pattern comes out of `Replace` unchanged. */
  lemma {:induction false} ReplaceWithoutMatch(s: string, pat: string, rep: string)
    requires pat != [] && !Contains(s, pat)
    ensures Replace(s, pat, rep) == s
    decreases |s|
  {
    if |s| >= |pat| {
      assert !StartsAt(s, pat, 0);
      IndexOfTail(s, pat);
      ReplaceWithoutMatch(s[1..], pat, rep);
      assert s == [s[0]] + s[1..];
    }
  }

  /** What `Replace` does, stated through the search: the text before the
      leftmost occurrence is kept, the occurrence becomes `rep`, and the
      rest is processed the same way. */
  lemma ReplaceAtLeftmost(s: string, pat: string, rep: string)
    requires pat != [] && Contains(s, pat)
    ensures var i := IndexOf(s, pat).value;
      Replace(s, pat, rep) == s[..i] + rep + Replace(s[i + |pat|..], pat, rep)
  {
    var i := IndexOf(s, pat).value;
    ReplaceKeepsPrefix(s, pat, rep, i);
    var u := s[i..];
    assert u[..|pat|] == pat;
    assert u[|pat|..] == s[i + |pat|..];
  }

  /** `[String]::join`. */
  function Join(parts: seq<string>, sep: string): string
    decreases |parts|
  {
    if |parts| == 0 then ""
    else if |parts| == 1 then parts[0]
    else parts[0] + sep + Join(parts[1..], sep)
  }

  /** Every part is a substring of the joined text. */
  lemma {:induction false} JoinContainsParts(parts: seq<string>, sep: string, k: int)
    requires 0 <= k < |parts|
    ensures Contains(Join(parts, sep), parts[k])
    decreases |parts|
  {
    var j := Join(parts, sep);
    if |parts| == 1 {
      assert StartsAt(j, parts[0], 0);
    } else if k == 0 {
      assert j[..|parts[0]|] == parts[0];
      assert StartsAt(j, parts[0], 0);
    } else {
      JoinContainsParts(parts[1..], sep, k - 1);
      var rest := Join(parts[1..], sep);
      var i :| 0 <= i <= |rest| && StartsAt(rest, parts[k], i);
      var off := |parts[0] + sep|;
      assert j == parts[0] + sep + rest;
      assert j[off + i..off + i + |parts[k]|] == rest[i..i + |parts[k]|];
      assert StartsAt(j, parts[k], off + i);
    }
  }

  /** The characters with Unicode's White_Space property, which `str::trim`
      removes. */
  predicate IsWhitespace(c: char) {
    ('\t' <= c <= '\r') || c == ' ' || c == '\U{0085}' || c == '\U{00A0}' || c == '\U{1680}'
    || ('\U{2000}' <= c <= '\U{200A}') || c == '\U{2028}' || c == '\U{2029}' || c == '\U{202F}'
    || c == '\U{205F}' || c == '\U{3000}'
  }

  predicate AllWhitespace(s: string) {
    forall k :: 0 <= k < |s| ==> IsWhitespace(s[k])
  }

  /** The first index at or after `i` that does not hold whitespace. */
  function SkipWhitespace(s: string, i: nat): (k: nat)
    requires i <= |s|
    decreases |s| - i
    ensures i <= k <= |s|
    ensures forall j :: i <= j < k ==> IsWhitespace(s[j])
    ensures k < |s| ==> !IsWhitespace(s[k])
  {
    if i < |s| && IsWhitespace(s[i]) then SkipWhitespace(s, i + 1) else i
  }

  /** The end of `s[lo..e]` once its trailing whitespace is dropped. */
  function TrailingStart(s: string, lo: nat, e: nat): (k: nat)
    requires lo <= e <= |s|
    decreases e
    ensures lo <= k <= e
    ensures forall j :: k <= j < e ==> IsWhitespace(s[j])
    ensures k > lo ==> !IsWhitespace(s[k - 1])
  {
    if e > lo && IsWhitespace(s[e - 1]) then TrailingStart(s, lo, e - 1) else e
  }

  /** `r` is `s` with the whitespace before index `i` and after `r` removed. */
  predicate TrimmedAt(s: string, r: string, i: int) {
    && 0 <= i && i + |r| <= |s| && s[i..i + |r|] == r
    && (forall j :: 0 <= j < i ==> IsWhitespace(s[j]))
    && (forall j :: i + |r| <= j < |s| ==> IsWhitespace(s[j]))
  }

  /** `str::trim`: the result is what is left of `s` after removing
      whitespace from both ends, and it neither starts nor ends with
      whitespace. */
  function Trim(s: string): (r: string)
    ensures |r| > 0 ==> !IsWhitespace(r[0]) && !IsWhitespace(r[|r| - 1])
    ensures exists i :: 0 <= i <= |s| && TrimmedAt(s, r, i)
  {
    var i := SkipWhitespace(s, 0);
    var e := TrailingStart(s, i, |s|);
    assert TrimmedAt(s, s[i..e], i);
    s[i..e]
  }

  /** Trimming twice is trimming once. */
  lemma TrimIdempotent(s: string)
    ensures Trim(Trim(s)) == Trim(s)
  {
    var r := Trim(s);
    assert SkipWhitespace(r, 0) == 0;
    assert TrailingStart(r, 0, |r|) == |r|;
  }

  /** The index of the first `c` in `s`. */
  function FindChar(s: string, c: char): (r: Option<nat>)
    decreases |s|
    ensures r.Some? ==> r.value < |s| && s[r.value] == c && c !in s[..r.value]
    ensures r.None? ==> c !in s
  {
    if s == [] then None
    else if s[0] == c then Some(0)
    else match FindChar(s[1..], c)
      case None => None
      case Some(i) =>
        assert s[..i + 1] == [s[0]] + s[1..][..i];
        Some(i + 1)
  }

  /** Drops one `\r` that ends a line. */
  function StripCarriageReturn(t: string): (r: string)
    ensures r == t || (t == r + "\r")
  {
    if |t| > 0 && t[|t| - 1] == '\r' then t[..|t| - 1] else t
  }

  /** `str::lines`: split at `\n` or `\r\n`; a final line ending adds no empty
      line, and the empty string has no lines. */
  function Lines(s: string): (r: seq<string>)
    decreases |s|
    ensures r == [] <==> s == []
    ensures forall k :: 0 <= k < |r| ==> '\n' !in r[k]
    ensures s != [] && '\n' !in s ==> r == [s]
  {
    if s == [] then []
    else match FindChar(s, '\n')
      case None => [s]
      case Some(i) => [StripCarriageReturn(s[..i])] + Lines(s[i + 1..])
  }

  /** `s.lines().next().unwrap_or("")`. */
  function FirstLine(s: string): (r: string)
    ensures '\n' !in r
    ensures |r| <= |s| && r == s[..|r|]
    ensures '\n' !in s ==> r == s
    ensures forall i :: 0 <= i < |s| && s[i] == '\n' && '\n' !in s[..i] ==> r == StripCarriageReturn(s[..i])
  {
    if s == [] then ""
    else match FindChar(s, '\n')
      case None => s
      case Some(i) =>
        assert Lines(s)[0] == StripCarriageReturn(s[..i]);
        Lines(s)[0]
  }

  /** `s.lines().nth(1).unwrap_or_default()`. */
  function SecondLine(s: string): (r: string)
    ensures '\n' !in r
  {
    if |Lines(s)| >= 2 then Lines(s)[1] else ""
  }

  /** The first line is the head of the lines, or empty when there are none. */
  lemma FirstLineIsHead(s: string)
    ensures FirstLine(s) == if Lines(s) == [] then "" else Lines(s)[0]
  {
    if s != [] && FindChar(s, '\n').None? {
      assert Lines(s) == [s];
    }
  }

  /** A text that starts with a line ending in `\n` splits into that line,
      without a closing `\r`, followed by the lines of the rest; with the
      no-newline case of `Lines`, this fixes every line. */
  lemma LinesOfLine(a: string, b: string)
    requires '\n' !in a
    ensures Lines(a + "\n" + b) == [StripCarriageReturn(a)] + Lines(b)
  {
    var s := a + "\n" + b;
    assert s[|a|] == '\n';
    var i := FindChar(s, '\n').value;
    assert i == |a| by {
      assert s[..|a|] == a;
      assert i <= |a|;
      assert s[..i] == a[..i];
    }
    assert s[..i] == a;
    assert s[i + 1..] == b;
  }

  /** The first line of a text that starts with a line ending in `\n` is
      that line without a closing `\r`. */
  lemma FirstLineOfLine(a: string, b: string)
    requires '\n' !in a
    ensures FirstLine(a + "\n" + b) == StripCarriageReturn(a)
  {
    var s := a + "\n" + b;
    assert s[|a|] == '\n' && s[..|a|] == a;
  }

  /** The second line is the first line of whatever follows the first `\n`. */
  lemma SecondLineAfterNewline(a: string, b: string)
    requires '\n' !in a
    ensures SecondLine(a + "\n" + b) == FirstLine(b)
  {
    LinesOfLine(a, b);
    FirstLineIsHead(b);
  }

  /** A text with no `\n` has no second line. */
  lemma NoSecondLine(a: string)
    requires '\n' !in a
    ensures SecondLine(a) == ""
  {
    if a != [] {
      assert Lines(a) == [a];
    }
  }

  // Decimal numerals, as `{}` and `{:0w}` format integers.

  predicate IsDigit(c: char) {
    '0' <= c <= '9'
  }

  predicate AllDigits(s: string) {
    forall k :: 0 <= k < |s| ==> IsDigit(s[k])
  }

  function DigitChar(d: int): (c: char)
    requires 0 <= d < 10
    ensures IsDigit(c) && c as int - '0' as int == d
  {
    "0123456789"[d]
  }

  function DigitValue(c: char): int
    requires IsDigit(c)
  {
    c as int - '0' as int
  }

  /** The shortest decimal numeral of `n`. */
  function Decimal(n: nat): (r: string)
    decreases n
    ensures |r| >= 1 && AllDigits(r)
  {
    if n < 10 then [DigitChar(n)] else Decimal(n / 10) + [DigitChar(n % 10)]
  }

  /** The number a numeral denotes. */
  function ValueOf(s: string): nat
    requires AllDigits(s)
    decreases |s|
  {
    if s == [] then 0 else ValueOf(s[..|s| - 1]) * 10 + DigitValue(s[|s| - 1])
  }

  lemma {:induction false} ValueOfDecimal(n: nat)
    ensures ValueOf(Decimal(n)) == n
    decreases n
  {
    if n >= 10 {
      ValueOfDecimal(n / 10);
      var d := Decimal(n);
      assert d[..|d| - 1] == Decimal(n / 10);
    }
  }

  function Pow10(w: nat): nat {
    if w == 0 then 1 else 10 * Pow10(w - 1)
  }

  lemma {:induction false} DecimalLength(n: nat, w: nat)
    requires 1 <= w && n < Pow10(w)
    ensures |Decimal(n)| <= w
    decreases w
  {
    if n >= 10 {
      assert w >= 2;
      DecimalLength(n / 10, w - 1);
    }
  }

  function Zeros(k: nat): (r: string)
    ensures |r| == k && forall j :: 0 <= j < k ==> r[j] == '0'
  {
    seq(k, _ => '0')
  }

  /** Pads a numeral on the left with `0` to at least `width` characters. */
  function ZeroPad(s: string, width: nat): (r: string)
    ensures |r| == if |s| >= width then |s| else width
    ensures r == Zeros(|r| - |s|) + s
  {
    if |s| >= width then s else Zeros(width - |s|) + s
  }

  lemma {:induction false} ValueOfLeadingZeros(k: nat, s: string)
    requires AllDigits(s)
    ensures AllDigits(Zeros(k) + s) && ValueOf(Zeros(k) + s) == ValueOf(s)
    decreases |s|
  {
    var t := Zeros(k) + s;
    if s == [] {
      assert t == Zeros(k);
      ValueOfZeros(k);
    } else {
      assert t[..|t| - 1] == Zeros(k) + s[..|s| - 1];
      ValueOfLeadingZeros(k, s[..|s| - 1]);
    }
  }

  lemma {:induction false} ValueOfZeros(k: nat)
    ensures ValueOf(Zeros(k)) == 0
    decreases k
  {
    if k > 0 {
      assert Zeros(k)[..k - 1] == Zeros(k - 1);
      ValueOfZeros(k - 1);
    }
  }

  /** Rust's `{:0width}` for a signed integer: the sign counts toward the
      width and the padding goes between sign and digits. */
  function FormatPadded(n: int, width: nat): (r: string)
  {
    if n >= 0 then ZeroPad(Decimal(n), width)
    else "-" + ZeroPad(Decimal(-n), if width > 0 then width - 1 else 0)
  }

  /** The padded numeral of a natural number reads back as that number. */
  lemma ZeroPadDecimalValue(m: nat, w: nat)
    ensures AllDigits(ZeroPad(Decimal(m), w)) && ValueOf(ZeroPad(Decimal(m), w)) == m
  {
    var d := Decimal(m);
    ValueOfDecimal(m);
    ValueOfLeadingZeros(|ZeroPad(d, w)| - |d|, d);
  }

  /** A non-negative number formats as at least `width` digits that read
      back as the number. */
  lemma FormatPaddedRoundTrip(n: int, width: nat)
    requires n >= 0
    ensures |FormatPadded(n, width)| >= width
    ensures AllDigits(FormatPadded(n, width)) && ValueOf(FormatPadded(n, width)) == n
  {
    ZeroPadDecimalValue(n, width);
  }

  /** A non-negative number below 10^width formats as exactly `width` digits. */
  lemma FormatPaddedWidth(n: int, width: nat)
    requires 1 <= width && 0 <= n < Pow10(width)
    ensures |FormatPadded(n, width)| == width && AllDigits(FormatPadded(n, width))
  {
    DecimalLength(n, width);
  }
}
