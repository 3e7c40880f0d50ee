/** Daystamps: the `YYYYMMDD` labels every sync job writes with
    `format!("{:04}{:02}{:02}", year, month as u8, day)`, and their inverse. */
module Daystamps {
  import opened Wrappers
  import opened Calendar
  import opened Text

  /** The daystamp of a calendar date. */
  function Daystamp(d: Date): string {
    FormatPadded(d.year, 4) + FormatPadded(d.month, 2) + FormatPadded(d.day, 2)
  }

  /** The daystamp of the local calendar date of `t`. */
  function DaystampOf(t: DateTime): string {
    Daystamp(DateOf(t))
  }

  /** Reads a daystamp back: the last four digits are month and day, the
      digits before them the year. */
  function ParseDaystamp(s: string): Option<Date> {
    if |s| >= 8 && AllDigits(s) then
      Some(Date(ValueOf(s[..|s| - 4]), ValueOf(s[|s| - 4..|s| - 2]), ValueOf(s[|s| - 2..])))
    else None
  }

  /** Every valid date from year 0 on is recovered from its daystamp. */
  lemma DaystampRoundTrip(d: Date)
    requires ValidDate(d) && d.year >= 0
    ensures ParseDaystamp(Daystamp(d)) == Some(d)
  {
    var y := FormatPadded(d.year, 4);
    var m := FormatPadded(d.month, 2);
    var dd := FormatPadded(d.day, 2);
    FormatPaddedRoundTrip(d.year, 4);
    FormatPaddedRoundTrip(d.month, 2);
    FormatPaddedRoundTrip(d.day, 2);
    FormatPaddedWidth(d.month, 2);
    FormatPaddedWidth(d.day, 2);
    ParseFields(y, m, dd);
  }

  /** Four or more year digits followed by two-digit month and day fields
      read back as the three numbers. */
  lemma ParseFields(y: string, m: string, dd: string)
    requires |y| >= 4 && |m| == 2 && |dd| == 2
    requires AllDigits(y) && AllDigits(m) && AllDigits(dd)
    ensures ParseDaystamp(y + m + dd) == Some(Date(ValueOf(y), ValueOf(m), ValueOf(dd)))
  {
    var s := y + m + dd;
    assert s[..|y|] == y;
    assert s[|y|..|y| + 2] == m;
    assert s[|y| + 2..] == dd;
    forall k | 0 <= k < |s| ensures IsDigit(s[k]) {
      if k < |y| {
        assert s[k] == y[k];
      } else if k < |y| + 2 {
        assert s[k] == m[k - |y|];
      } else {
        assert s[k] == dd[k - |y| - 2];
      }
    }
  }

  /** Distinct dates (from year 0 on) have distinct daystamps. */
  lemma DaystampInjective(a: Date, b: Date)
    requires ValidDate(a) && ValidDate(b) && a.year >= 0 && b.year >= 0
    requires Daystamp(a) == Daystamp(b)
    ensures a == b
  {
    DaystampRoundTrip(a);
    DaystampRoundTrip(b);
  }

  /** For years 0 to 9999 a daystamp is exactly eight digits. */
  lemma DaystampShape(d: Date)
    requires ValidDate(d) && 0 <= d.year <= 9999
    ensures |Daystamp(d)| == 8 && AllDigits(Daystamp(d))
  {
    FormatPaddedWidth(d.year, 4);
    FormatPaddedWidth(d.month, 2);
    FormatPaddedWidth(d.day, 2);
  }

  /** Instants on different local days carry different daystamps. */
  lemma DistinctDaysDistinctDaystamps(s: DateTime, t: DateTime)
    requires LocalDay(s) != LocalDay(t)
    requires DateOf(s).year >= 0 && DateOf(t).year >= 0
    ensures DaystampOf(s) != DaystampOf(t)
  {
    if DaystampOf(s) == DaystampOf(t) {
      DaystampInjective(DateOf(s), DateOf(t));
      CivilFromDaysInjective(LocalDay(s), LocalDay(t));
    }
  }
}
