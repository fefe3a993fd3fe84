/**
 Calendar dates as the schedule and the injury report carry them: compared
 chronologically and rendered the way Python's `str(date)` renders them.
 */
module Dates {
  import opened Basics

  datatype Date = Date(year: nat, month: nat, day: nat)

  /** Chronological order: year, then month, then day. */
  predicate OnOrBefore(a: Date, b: Date)
  {
    a.year < b.year
    || (a.year == b.year && a.month < b.month)
    || (a.year == b.year && a.month == b.month && a.day <= b.day)
  }

  /** `str(date)`: "YYYY-MM-DD" with zero padding. */
  function Iso(d: Date): string
  {
    PadNat(d.year, 4) + "-" + PadNat(d.month, 2) + "-" + PadNat(d.day, 2)
  }

  /** The rendering holds only digits and dashes. */
  lemma IsoAvoids(d: Date, c: char)
    requires !IsDigit(c) && c != '-'
    ensures c !in Iso(d)
  {
    var s := Iso(d);
    assert forall i :: 0 <= i < |s| ==> IsDigit(s[i]) || s[i] == '-';
  }

  /** The rendering never contains a line break, so one injury is one line. */
  lemma IsoHasNoNewline(d: Date)
    ensures '\n' !in Iso(d)
  {
    var s := Iso(d);
    assert forall i :: 0 <= i < |s| ==> IsDigit(s[i]) || s[i] == '-';
  }
}
