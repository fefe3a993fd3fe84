/**
 The play-by-play clock. Each row carries the time remaining in its period
 as "M:SS.d"; the rows are turned into one elapsed-time axis for the whole
 game by adding up only the decreases of the remaining time, so the reset of
 the clock at a period boundary adds nothing. Times are integer tenths of a
 second throughout (the program works in float minutes; dividing by 600 is
 only a change of unit).
 */
module Clock {
  import opened Basics

  const TenthsPerMinute: nat := 600

  // ---------------------------------------------------------------------
  // Parsing "M:SS.d"
  // ---------------------------------------------------------------------

  /** `float(s)` for a seconds field with at most one decimal: "24", "24.",
      "24.5" or ".5", as tenths of a second. A field of digits alone is
      whole seconds; see `SecondsWithDecimal` for the other forms. */
  function ParseSeconds(s: string): (r: Option<nat>)
    ensures |s| > 0 && AllDigits(s) ==> r == Some(10 * DigitsValue(s))
    ensures r.Some? ==> |s| > 0
  {
    var parts := Split(s, '.');
    if |parts| == 1 then
      SplitWithout(s, '.');
      match ParseNat(parts[0])
      case Some(v) => Some(10 * v)
      case None => None
    else if |parts| == 2 && (parts[0] != "" || parts[1] != "") then
      var whole := if parts[0] == "" then Some(0) else ParseNat(parts[0]);
      var tenth := if parts[1] == "" then Some(0)
                   else if |parts[1]| == 1 then ParseNat(parts[1])
                   else None;
      SplitWithout(s, '.');
      if whole.Some? && tenth.Some? then Some(10 * whole.value + tenth.value) else None
    else
      SplitWithout(s, '.');
      None
  }

  /** The seconds fields the model reads: digits and at most one point,
      at most one digit after the point, and not the point alone. */
  predicate SecondsField(s: string)
  {
    var parts := Split(s, '.');
    && (forall i :: 0 <= i < |s| ==> IsDigit(s[i]) || s[i] == '.')
    && |parts| <= 2
    && (|parts| == 2 ==> |parts[1]| <= 1)
    && s != "" && s != "."
  }

  /** `ParseSeconds` succeeds on exactly the fields above; any other field,
      "abc" or "1.2.3" say, is an error, where `float()` raises. */
  lemma ParseSecondsAccepts(s: string)
    ensures ParseSeconds(s).Some? <==> SecondsField(s)
  {
    var parts := Split(s, '.');
    JoinSplit(s, '.');
    if |parts| == 1 {
      assert parts == [parts[0]];
      assert s == parts[0] by {
        assert Join(parts, ".") == parts[0];
      }
    } else if |parts| == 2 {
      var w, d := parts[0], parts[1];
      assert s == w + "." + d by {
        assert parts == [w, d];
        JoinTwo(w, d, ".");
      }
      PointChars(w, d);
    }
  }

  /** The characters of "W.D", neither part holding a point, are digits or
      the point exactly when both parts are digits. */
  lemma PointChars(w: string, d: string)
    requires '.' !in w && '.' !in d
    ensures var s := w + "." + d;
            (forall i :: 0 <= i < |s| ==> IsDigit(s[i]) || s[i] == '.') <==> AllDigits(w) && AllDigits(d)
  {
    var s := w + "." + d;
    assert forall i :: 0 <= i < |w| ==> s[i] == w[i];
    assert forall j :: 0 <= j < |d| ==> s[|w| + 1 + j] == d[j];
    if forall i :: 0 <= i < |s| ==> IsDigit(s[i]) || s[i] == '.' {
      forall i | 0 <= i < |w| ensures IsDigit(w[i]) {
        assert s[i] == w[i];
      }
      forall j | 0 <= j < |d| ensures IsDigit(d[j]) {
        assert s[|w| + 1 + j] == d[j];
      }
    }
    if AllDigits(w) && AllDigits(d) {
      forall i | 0 <= i < |s| ensures IsDigit(s[i]) || s[i] == '.' {
        if i > |w| {
          assert s[i] == d[i - |w| - 1];
        }
      }
    }
  }

  /** Whole seconds and at most one tenth digit, either part possibly
      empty but not both, read as tenths of a second. */
  lemma {:induction false} SecondsWithDecimal(w: string, d: string)
    requires AllDigits(w) && AllDigits(d)
    requires |d| <= 1 && |w| + |d| > 0
    ensures ParseSeconds(w + "." + d) == Some(10 * DigitsValue(w) + DigitsValue(d))
  {
    SecondsFields(w, d);
    if |d| == 1 {
      assert d[..0] == [];
      assert DigitsValue(d) == DigitValue(d[0]);
    }
  }

  /** `int(t.split(":")[0]) * 60 + float(t.split(":")[1])`, in tenths. Fields
      after a second colon are ignored, as the program ignores them; a reading
      without a colon or with a malformed field is an error (None). */
  function ParseClock(t: string): (r: Option<nat>)
    ensures var fields := Split(t, ':');
            r.Some? <==> |fields| >= 2 && ParseNat(fields[0]).Some? && ParseSeconds(fields[1]).Some?
    ensures r.Some? ==> r.value == TenthsPerMinute * ParseNat(Split(t, ':')[0]).value
                                   + ParseSeconds(Split(t, ':')[1]).value
  {
    var fields := Split(t, ':');
    if |fields| < 2 then None
    else
      match (ParseNat(fields[0]), ParseSeconds(fields[1]))
      case (Some(minutes), Some(tenths)) => Some(TenthsPerMinute * minutes + tenths)
      case _ => None
  }

  /** A reading without the decimal, "M:SS", is M minutes and SS seconds,
      whatever the number of digits in either field. */
  lemma {:induction false} WholeSecondsRoundTrip(m: string, ss: string)
    requires |m| > 0 && AllDigits(m) && |ss| > 0 && AllDigits(ss)
    ensures ParseClock(m + ":" + ss)
              == Some(TenthsPerMinute * DigitsValue(m) + 10 * DigitsValue(ss))
  {
    DigitsAvoid(m, ':');
    DigitsAvoid(ss, ':');
    ParseFields(m, ss, DigitsValue(m), 10 * DigitsValue(ss));
  }

  /** Every reading in the play-by-play format "M:SS.d" parses to M minutes,
      SS seconds and d tenths. */
  lemma {:induction false} ClockRoundTrip(m: string, ss: string, d: char)
    requires |m| > 0 && AllDigits(m) && AllDigits(ss) && IsDigit(d)
    ensures ParseClock(m + ":" + (ss + "." + [d]))
              == Some(TenthsPerMinute * DigitsValue(m) + 10 * DigitsValue(ss) + DigitValue(d))
  {
    assert AllDigits([d]) && DigitsValue([d]) == DigitValue(d) by {
      assert [d][..0] == [];
    }
    SecondsOf(ss, [d], DigitsValue(ss), DigitValue(d));
    DigitsAvoid(m, ':');
    ParseFields(m, ss + "." + [d], DigitsValue(m), 10 * DigitsValue(ss) + DigitValue(d));
  }

  /** A reading made of a minutes field and a seconds field is their sum. */
  lemma {:induction false} ParseFields(m: string, sec: string, minutes: nat, tenths: nat)
    requires ':' !in m && ':' !in sec
    requires ParseNat(m) == Some(minutes) && ParseSeconds(sec) == Some(tenths)
    ensures ParseClock(m + ":" + sec) == Some(TenthsPerMinute * minutes + tenths)
  {
    ClockFields(m, sec);
  }

  /** A minutes field and a colon-free seconds field split apart again. */
  lemma {:induction false} ClockFields(m: string, sec: string)
    requires ':' !in m && ':' !in sec
    ensures Split(m + ":" + sec, ':') == [m, sec]
  {
    JoinTwo(m, sec, ":");
    assert FreeOf([m, sec], ':');
    SplitJoin([m, sec], ':');
  }

  /** Two digit fields around a decimal point, the second of one digit. */
  lemma {:induction false} SecondsOf(ss: string, d: string, seconds: nat, digit: nat)
    requires AllDigits(ss) && AllDigits(d) && |d| == 1
    requires DigitsValue(ss) == seconds && DigitsValue(d) == digit
    ensures ':' !in ss + "." + d
    ensures ParseSeconds(ss + "." + d) == Some(10 * seconds + digit)
  {
    SecondsFields(ss, d);
    SecondsWithDecimal(ss, d);
  }

  lemma {:induction false} SecondsFields(ss: string, d: string)
    requires AllDigits(ss) && AllDigits(d)
    ensures ':' !in ss + "." + d
    ensures Split(ss + "." + d, '.') == [ss, d]
  {
    var sec := ss + "." + d;
    assert ':' !in sec by {
      forall i | 0 <= i < |sec|
        ensures sec[i] != ':'
      {
        if i < |ss| {
          assert sec[i] == ss[i];
        } else if i > |ss| {
          assert sec[i] == d[i - |ss| - 1];
        }
      }
    }
    assert '.' !in ss by {
      forall i | 0 <= i < |ss| ensures ss[i] != '.' { assert IsDigit(ss[i]); }
    }
    assert '.' !in d by {
      forall i | 0 <= i < |d| ensures d[i] != '.' { assert IsDigit(d[i]); }
    }
    JoinTwo(ss, d, ".");
    assert FreeOf([ss, d], '.');
    SplitJoin([ss, d], '.');
  }

  // ---------------------------------------------------------------------
  // The elapsed-time axis
  // ---------------------------------------------------------------------

  /** `np.minimum(diff, 0)` negated: how much the remaining time went down
      from one row to the next. */
  function Gain(previous: int, current: int): int
  {
    -Min(current - previous, 0)
  }

  /** The clipped differences of consecutive readings. */
  function Gains(remaining: seq<int>): (g: seq<int>)
    requires |remaining| >= 1
    ensures |g| == |remaining| - 1
    ensures forall i :: 0 <= i < |g| ==> g[i] == Gain(remaining[i], remaining[i + 1])
  {
    seq(|remaining| - 1, i requires 0 <= i < |remaining| - 1 => Gain(remaining[i], remaining[i + 1]))
  }

  /** The `time` column: the running sum of the clipped differences, 0 for
      the first row (`cumsum().fillna(0)`, sign flipped). Element i is the
      game time elapsed at row i. */
  function Elapsed(remaining: seq<int>): (time: seq<int>)
    ensures |time| == |remaining|
    ensures |time| > 0 ==> time[0] == 0
  {
    if |remaining| == 0 then []
    else if |remaining| == 1 then [0]
    else
      var n := |remaining|;
      var front := Elapsed(remaining[..n - 1]);
      front + [front[n - 2] + Gain(remaining[n - 2], remaining[n - 1])]
  }

  /** From one row to the next the elapsed time grows by exactly the
      decrease of the remaining time, and by nothing when the clock goes up
      (the reset at a period boundary). */
  lemma {:induction false} ElapsedStep(remaining: seq<int>, i: nat)
    requires 0 < i < |remaining|
    ensures Elapsed(remaining)[i]
              == Elapsed(remaining)[i - 1] + Max(remaining[i - 1] - remaining[i], 0)
    decreases |remaining|
  {
    var n := |remaining|;
    var front := remaining[..n - 1];
    if i < n - 1 {
      ElapsedStep(front, i);
      assert front[i - 1] == remaining[i - 1] && front[i] == remaining[i];
    }
  }

  /** The same axis as an explicit fold carrying the previous reading and
      the elapsed time so far. */
  function ElapsedFold(previous: int, elapsed: int, rest: seq<int>): seq<int>
    decreases |rest|
  {
    if |rest| == 0 then []
    else
      var next := elapsed + Max(previous - rest[0], 0);
      [next] + ElapsedFold(rest[0], next, rest[1..])
  }

  /** The vectorised computation and the fold agree on every input. */
  lemma {:induction false} ElapsedIsFold(remaining: seq<int>)
    requires |remaining| >= 1
    ensures Elapsed(remaining) == [0] + ElapsedFold(remaining[0], 0, remaining[1..])
  {
    var time := Elapsed(remaining);
    ElapsedFoldSteps(remaining, time, 1);
  }

  lemma {:induction false} ElapsedFoldSteps(remaining: seq<int>, time: seq<int>, k: nat)
    requires 1 <= k <= |remaining|
    requires time == Elapsed(remaining)
    ensures time[k..] == ElapsedFold(remaining[k - 1], time[k - 1], remaining[k..])
    decreases |remaining| - k
  {
    if k < |remaining| {
      ElapsedFoldSteps(remaining, time, k + 1);
      ElapsedStep(remaining, k);
      assert remaining[k..][1..] == remaining[k + 1..];
      assert time[k..] == [time[k]] + time[k + 1..];
    }
  }

  /** Elapsed time never goes backwards, however many periods there are. */
  lemma {:induction false} ElapsedMonotone(remaining: seq<int>, i: nat, j: nat)
    requires i <= j < |remaining|
    ensures Elapsed(remaining)[i] <= Elapsed(remaining)[j]
    decreases j - i
  {
    if i < j {
      ElapsedMonotone(remaining, i, j - 1);
      ElapsedStep(remaining, j);
    }
  }

  /** The final elapsed time is the sum of all clipped decreases of the clock. */
  lemma {:induction false} ElapsedTotal(remaining: seq<int>)
    requires |remaining| >= 1
    ensures Elapsed(remaining)[|remaining| - 1] == Sum(Gains(remaining))
    decreases |remaining|
  {
    var n := |remaining|;
    if n > 1 {
      var front := remaining[..n - 1];
      ElapsedTotal(front);
      GainsPrefix(remaining);
      assert Sum(Gains(remaining)) == Sum(Gains(front)) + Gains(remaining)[n - 2];
    }
  }

  /** The gains of all rows but the last are a prefix of the gains. */
  lemma GainsPrefix(remaining: seq<int>)
    requires |remaining| >= 2
    ensures Gains(remaining)[..|remaining| - 2] == Gains(remaining[..|remaining| - 1])
  {
    var n := |remaining|;
    var front := remaining[..n - 1];
    forall i | 0 <= i < n - 2
      ensures Gains(remaining)[..n - 2][i] == Gains(front)[i]
    {
      assert front[i] == remaining[i] && front[i + 1] == remaining[i + 1];
    }
  }

  // ---------------------------------------------------------------------
  // Per-row durations
  // ---------------------------------------------------------------------

  /** The `duration` column: `time.diff().fillna(0)`. */
  function Durations(time: seq<int>): (d: seq<int>)
    ensures |d| == |time|
    ensures |d| > 0 ==> d[0] == 0
    ensures forall i :: 0 < i < |d| ==> d[i] == time[i] - time[i - 1]
  {
    if |time| == 0 then []
    else [0] + seq(|time| - 1, i requires 0 <= i < |time| - 1 => time[i + 1] - time[i])
  }

  /** Durations telescope: they add up to the last time minus the first. */
  lemma {:induction false} DurationsTelescope(time: seq<int>)
    requires |time| >= 1
    ensures Sum(Durations(time)) == time[|time| - 1] - time[0]
    decreases |time|
  {
    if |time| > 1 {
      var n := |time|;
      var d := Durations(time);
      DurationsTelescope(time[..n - 1]);
      DurationsPrefix(time);
      assert |d| == n;
      assert Sum(d) == Sum(d[..n - 1]) + d[n - 1];
    } else {
      assert Durations(time) == [0];
      assert Durations(time)[..0] == [];
    }
  }

  /** The durations of all rows but the last are a prefix of the durations. */
  lemma DurationsPrefix(time: seq<int>)
    requires |time| >= 1
    ensures Durations(time)[..|time| - 1] == Durations(time[..|time| - 1])
  {
    var n := |time|;
    var d := Durations(time);
    var front := time[..n - 1];
    forall i | 0 <= i < n - 1
      ensures d[..n - 1][i] == Durations(front)[i]
    {
      if i > 0 {
        assert front[i] == time[i] && front[i - 1] == time[i - 1];
      }
    }
  }

  /** On the elapsed axis the first duration is 0, every duration is
      non-negative, and together they add up to the final elapsed time. */
  lemma {:induction false} DurationsOfElapsed(remaining: seq<int>)
    requires |remaining| >= 1
    ensures var d := Durations(Elapsed(remaining));
            && d[0] == 0
            && (forall i :: 0 <= i < |d| ==> d[i] >= 0)
            && Sum(d) == Elapsed(remaining)[|remaining| - 1]
  {
    DurationsTelescope(Elapsed(remaining));
    DurationsOfElapsedNonNegative(remaining);
  }

  lemma DurationsOfElapsedNonNegative(remaining: seq<int>)
    ensures var d := Durations(Elapsed(remaining));
            forall i :: 0 <= i < |d| ==> d[i] >= 0
  {
    var d := Durations(Elapsed(remaining));
    forall i | 0 < i < |d|
      ensures d[i] >= 0
    {
      ElapsedStep(remaining, i);
    }
  }
}
