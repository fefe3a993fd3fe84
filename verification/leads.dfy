/**
 The score statistics of one game, computed from the play-by-play rows'
 running scores: ties, lead changes, largest lead, how long each side led,
 and the period markers drawn on the score chart. The lead of a row is the
 away score minus the home score.
 */
module Leads {
  import opened Basics

  /** The running score reported by one play-by-play row. */
  datatype Score = Score(away: int, home: int)

  function Lead(s: Score): int { s.away - s.home }

  /** The lead column. */
  function LeadsOf(rows: seq<Score>): (leads: seq<int>)
    ensures |leads| == |rows|
    ensures forall i :: 0 <= i < |rows| ==> leads[i] == Lead(rows[i])
  {
    seq(|rows|, i requires 0 <= i < |rows| => Lead(rows[i]))
  }

  /** The same game with the two teams' columns exchanged. */
  function SwapTeams(rows: seq<Score>): (swapped: seq<Score>)
    ensures |swapped| == |rows|
    ensures forall i :: 0 <= i < |rows| ==> swapped[i] == Score(rows[i].home, rows[i].away)
  {
    seq(|rows|, i requires 0 <= i < |rows| => Score(rows[i].home, rows[i].away))
  }

  function Negate(xs: seq<int>): (ys: seq<int>)
    ensures |ys| == |xs|
    ensures forall i :: 0 <= i < |xs| ==> ys[i] == -xs[i]
  {
    seq(|xs|, i requires 0 <= i < |xs| => -xs[i])
  }

  function Abs(x: int): nat { if x < 0 then -x else x }

  // ---------------------------------------------------------------------
  // Ties
  // ---------------------------------------------------------------------

  /** A level score other than the opening 0:0. */
  predicate IsTie(s: Score) { s.away > 0 && s.away == s.home }

  predicate Distinct(d: seq<Score>)
  {
    forall i, j :: 0 <= i < j < |d| ==> d[i] != d[j]
  }

  /** `drop_duplicates(subset=["away_score", "home_score"])`: the first row
      of every score pair, in order. */
  function DropDuplicates(rows: seq<Score>): (d: seq<Score>)
    ensures forall s :: s in d <==> s in rows
    ensures Distinct(d)
  {
    if |rows| == 0 then []
    else
      var kept := DropDuplicates(rows[..|rows| - 1]);
      var last := rows[|rows| - 1];
      if last in kept then kept else kept + [last]
  }

  /** `.query("away_score > 0").eval("away_score == home_score").sum()`. */
  function CountTies(d: seq<Score>): nat
  {
    if |d| == 0 then 0
    else CountTies(d[..|d| - 1]) + (if IsTie(d[|d| - 1]) then 1 else 0)
  }

  /** The distinct level scores, 0:0 excluded. */
  function TieSet(rows: seq<Score>): set<Score>
  {
    set s | s in rows && IsTie(s)
  }

  /** The "Ties" figure: the number of distinct level scores above 0:0. */
  function TieCount(rows: seq<Score>): (n: nat)
    ensures n == |TieSet(rows)|
  {
    var d := DropDuplicates(rows);
    CountDistinctTies(d);
    assert TieSet(d) == TieSet(rows);
    CountTies(d)
  }

  lemma {:induction false} CountDistinctTies(d: seq<Score>)
    requires Distinct(d)
    ensures CountTies(d) == |TieSet(d)|
    decreases |d|
  {
    if |d| > 0 {
      var front := d[..|d| - 1];
      var last := d[|d| - 1];
      assert d == front + [last];
      CountDistinctTies(front);
      assert last !in front;
      if IsTie(last) {
        assert TieSet(d) == TieSet(front) + {last};
      } else {
        assert TieSet(d) == TieSet(front);
      }
    }
  }

  /** Inserting a row that repeats an earlier score, or a row that is not a
      tie (such as 0:0), leaves the tie count unchanged. */
  lemma TieCountInsert(before: seq<Score>, row: Score, after: seq<Score>)
    requires row in before + after || !IsTie(row)
    ensures TieCount(before + [row] + after) == TieCount(before + after)
  {
    assert TieSet(before + [row] + after) == TieSet(before + after);
  }

  lemma TieCountExample()
    ensures TieCount([Score(0, 0), Score(2, 0), Score(2, 2), Score(2, 2), Score(4, 2)]) == 1
  {
    var rows := [Score(0, 0), Score(2, 0), Score(2, 2), Score(2, 2), Score(4, 2)];
    assert rows[2] == Score(2, 2);
    assert TieSet(rows) == {Score(2, 2)};
  }

  // ---------------------------------------------------------------------
  // Lead changes
  // ---------------------------------------------------------------------

  /** `replace(0, np.nan).dropna()`: the non-zero leads in order. */
  function NonZero(leads: seq<int>): (nz: seq<int>)
    ensures forall i :: 0 <= i < |nz| ==> nz[i] != 0
    ensures forall x :: x != 0 ==> multiset(nz)[x] == multiset(leads)[x]
    ensures |nz| <= |leads|
  {
    if |leads| == 0 then []
    else
      assert leads == [leads[0]] + leads[1..];
      (if leads[0] == 0 then [] else [leads[0]]) + NonZero(leads[1..])
  }

  lemma {:induction false} NonZeroAppend(a: seq<int>, b: seq<int>)
    ensures NonZero(a + b) == NonZero(a) + NonZero(b)
    decreases |a|
  {
    if |a| == 0 {
      assert a + b == b;
    } else {
      assert (a + b)[0] == a[0];
      assert (a + b)[1..] == a[1..] + b;
      NonZeroAppend(a[1..], b);
    }
  }

  /** `(nonzero < 0).diff().sum()`: how many neighbouring non-zero leads
      disagree on whether the home side is ahead. */
  function Flips(nz: seq<int>): (n: nat)
    ensures n <= Max(0, |nz| - 1)
  {
    if |nz| < 2 then 0
    else Flips(nz[..|nz| - 1]) + (if (nz[|nz| - 2] < 0) != (nz[|nz| - 1] < 0) then 1 else 0)
  }

  /** The "Lead changes" figure: a level score is no lead at all, so the
      leader is compared only between rows where someone leads. */
  function LeadChanges(leads: seq<int>): (n: nat)
    ensures n <= Max(0, |NonZero(leads)| - 1)
  {
    Flips(NonZero(leads))
  }

  /** Rows with a level score can be added or removed anywhere. */
  lemma LeadChangesIgnoreLevelRows(before: seq<int>, after: seq<int>)
    ensures LeadChanges(before + [0] + after) == LeadChanges(before + after)
  {
    NonZeroAppend(before + [0], after);
    NonZeroAppend(before, [0]);
    NonZeroAppend(before, after);
    assert NonZero([0]) == [];
    assert NonZero(before) + [] == NonZero(before);
  }

  lemma {:induction false} NonZeroNegate(leads: seq<int>)
    ensures NonZero(Negate(leads)) == Negate(NonZero(leads))
    decreases |leads|
  {
    if |leads| > 0 {
      NonZeroNegate(leads[1..]);
      assert Negate(leads)[1..] == Negate(leads[1..]);
      var head := if leads[0] == 0 then [] else [leads[0]];
      assert Negate(head + NonZero(leads[1..])) == Negate(head) + Negate(NonZero(leads[1..]));
    }
  }

  lemma {:induction false} FlipsNegate(nz: seq<int>)
    requires forall i :: 0 <= i < |nz| ==> nz[i] != 0
    ensures Flips(Negate(nz)) == Flips(nz)
    decreases |nz|
  {
    if |nz| >= 2 {
      FlipsNegate(nz[..|nz| - 1]);
      assert Negate(nz)[..|nz| - 1] == Negate(nz[..|nz| - 1]);
    }
  }

  /** Exchanging the teams does not change the number of lead changes. */
  lemma LeadChangesSwap(leads: seq<int>)
    ensures LeadChanges(Negate(leads)) == LeadChanges(leads)
  {
    NonZeroNegate(leads);
    FlipsNegate(NonZero(leads));
  }

  /** The number of flips is odd exactly when the first and the last
      non-zero leads belong to different teams. */
  lemma {:induction false} FlipsParity(nz: seq<int>)
    requires |nz| >= 1
    ensures Flips(nz) % 2 == (if (nz[0] < 0) == (nz[|nz| - 1] < 0) then 0 else 1)
    decreases |nz|
  {
    if |nz| >= 2 {
      FlipsParity(nz[..|nz| - 1]);
    }
  }

  /** No lead change happened exactly when one team led at every row where
      anyone led. */
  lemma {:induction false} FlipsZero(nz: seq<int>)
    requires |nz| >= 1
    ensures Flips(nz) == 0 <==> forall i :: 0 <= i < |nz| ==> (nz[i] < 0) == (nz[0] < 0)
    decreases |nz|
  {
    if |nz| >= 2 {
      var front := nz[..|nz| - 1];
      FlipsZero(front);
      assert forall i :: 0 <= i < |front| ==> front[i] == nz[i];
    }
  }

  /** A tie is no lead: [0, 3, -1, -1, 2, -4] has three lead changes
      (3 to -1, -1 to 2, 2 to -4). */
  lemma LeadChangesExample()
    ensures LeadChanges([0, 3, -1, -1, 2, -4]) == 3
  {
    NonZeroExample();
    FlipsExample();
  }

  lemma NonZeroExample()
    ensures NonZero([0, 3, -1, -1, 2, -4]) == [3, -1, -1, 2, -4]
  {
    var leads := [0, 3, -1, -1, 2, -4];
    assert leads == [0] + [3, -1, -1, 2, -4];
    NonZeroAppend([0], [3, -1, -1, 2, -4]);
    assert NonZero([3, -1, -1, 2, -4]) == [3, -1, -1, 2, -4] by {
      assert [3, -1, -1, 2, -4][1..] == [-1, -1, 2, -4];
      assert [-1, -1, 2, -4][1..] == [-1, 2, -4];
      assert [-1, 2, -4][1..] == [2, -4];
      assert [2, -4][1..] == [-4];
      assert [-4][1..] == [];
    }
    assert NonZero([0]) == [] by {
      assert [0][1..] == [];
    }
  }

  lemma FlipsExample()
    ensures Flips([3, -1, -1, 2, -4]) == 3
  {
    var nz := [3, -1, -1, 2, -4];
    assert [3, -1][..1] == [3];
    assert Flips([3, -1]) == 1;
    assert [3, -1, -1][..2] == [3, -1];
    assert Flips([3, -1, -1]) == 1;
    assert [3, -1, -1, 2][..3] == [3, -1, -1];
    assert Flips([3, -1, -1, 2]) == 2;
    assert nz[..4] == [3, -1, -1, 2];
  }

  // ---------------------------------------------------------------------
  // Largest lead
  // ---------------------------------------------------------------------

  function AbsAll(xs: seq<int>): (ys: seq<int>)
    ensures |ys| == |xs|
    ensures forall i :: 0 <= i < |xs| ==> ys[i] == Abs(xs[i])
  {
    seq(|xs|, i requires 0 <= i < |xs| => Abs(xs[i]))
  }

  /** The "Largest lead" figure, `lead.abs().max()`: the largest margin
      either side held; None (NaN) when there are no rows. */
  function LargestLead(leads: seq<int>): (r: Option<int>)
    ensures r.None? <==> |leads| == 0
    ensures r.Some? ==> r.value >= 0
    ensures r.Some? ==> forall i :: 0 <= i < |leads| ==> Abs(leads[i]) <= r.value
    ensures r.Some? ==> exists i :: 0 <= i < |leads| && Abs(leads[i]) == r.value
  {
    MaxValue(AbsAll(leads))
  }

  /** Exchanging the teams does not change the largest lead. */
  lemma LargestLeadSwap(leads: seq<int>)
    ensures LargestLead(Negate(leads)) == LargestLead(leads)
  {
    var margins := AbsAll(Negate(leads));
    forall i | 0 <= i < |leads|
      ensures margins[i] == AbsAll(leads)[i]
    {
      assert Negate(leads)[i] == -leads[i];
    }
    assert margins == AbsAll(leads);
  }

  // ---------------------------------------------------------------------
  // Time leading
  // ---------------------------------------------------------------------

  datatype Side = Away | Home | Level

  function Leader(s: Score): Side
  {
    if s.away > s.home then Away else if s.away < s.home then Home else Level
  }

  /** `query(...)["duration"].sum()`: the summed durations of the rows at
      which `side` leads; each interval is credited by the score at the row
      that ends it. */
  function LedTime(rows: seq<Score>, durations: seq<int>, side: Side): int
    requires |rows| == |durations|
  {
    if |rows| == 0 then 0
    else
      var n := |rows|;
      LedTime(rows[..n - 1], durations[..n - 1], side)
        + (if Leader(rows[n - 1]) == side then durations[n - 1] else 0)
  }

  /** The led time is the sum of the duration column after every row where
      `side` does not lead has been set to 0. */
  lemma {:induction false} LedTimeIsCreditedSum(rows: seq<Score>, durations: seq<int>, side: Side)
    requires |rows| == |durations|
    ensures LedTime(rows, durations, side) == Sum(Credited(rows, durations, side))
    decreases |rows|
  {
    if |rows| > 0 {
      var n := |rows|;
      CreditedPrefix(rows, durations, side);
      LedTimeIsCreditedSum(rows[..n - 1], durations[..n - 1], side);
    }
  }

  /** The duration column with every row where `side` does not lead set to
      0: the rows the query keeps, in place. */
  function Credited(rows: seq<Score>, durations: seq<int>, side: Side): (c: seq<int>)
    requires |rows| == |durations|
    ensures |c| == |rows|
    ensures forall i :: 0 <= i < |c| ==>
              c[i] == if Leader(rows[i]) == side then durations[i] else 0
  {
    seq(|rows|, i requires 0 <= i < |rows| => if Leader(rows[i]) == side then durations[i] else 0)
  }

  lemma CreditedPrefix(rows: seq<Score>, durations: seq<int>, side: Side)
    requires |rows| == |durations| > 0
    ensures var n := |rows|;
            Credited(rows, durations, side)[..n - 1]
              == Credited(rows[..n - 1], durations[..n - 1], side)
  {
    var n := |rows|;
    var front := Credited(rows[..n - 1], durations[..n - 1], side);
    forall i | 0 <= i < n - 1
      ensures Credited(rows, durations, side)[..n - 1][i] == front[i]
    {
      assert rows[..n - 1][i] == rows[i] && durations[..n - 1][i] == durations[i];
    }
  }

  /** Away-led, home-led and level time add up to the whole duration. */
  lemma {:induction false} LedTimeConservation(rows: seq<Score>, durations: seq<int>)
    requires |rows| == |durations|
    ensures LedTime(rows, durations, Away) + LedTime(rows, durations, Home)
              + LedTime(rows, durations, Level) == Sum(durations)
    decreases |rows|
  {
    if |rows| > 0 {
      LedTimeConservation(rows[..|rows| - 1], durations[..|rows| - 1]);
    }
  }

  /** With non-negative durations every side's time is non-negative and at
      most the whole duration. */
  lemma {:induction false} LedTimeBounds(rows: seq<Score>, durations: seq<int>, side: Side)
    requires |rows| == |durations|
    requires forall i :: 0 <= i < |durations| ==> durations[i] >= 0
    ensures 0 <= LedTime(rows, durations, side) <= Sum(durations)
    decreases |rows|
  {
    if |rows| > 0 {
      LedTimeBounds(rows[..|rows| - 1], durations[..|rows| - 1], side);
    }
  }

  /** Exchanging the teams exchanges their led times. */
  lemma {:induction false} LedTimeSwap(rows: seq<Score>, durations: seq<int>)
    requires |rows| == |durations|
    ensures LedTime(SwapTeams(rows), durations, Away) == LedTime(rows, durations, Home)
    ensures LedTime(SwapTeams(rows), durations, Home) == LedTime(rows, durations, Away)
    decreases |rows|
  {
    if |rows| > 0 {
      var n := |rows|;
      assert SwapTeams(rows)[..n - 1] == SwapTeams(rows[..n - 1]);
      LedTimeSwap(rows[..n - 1], durations[..n - 1]);
    }
  }

  // ---------------------------------------------------------------------
  // Period markers on the score chart
  // ---------------------------------------------------------------------

  /** Candidate period ends in minutes: four quarters, then five-minute
      overtimes. */
  const PauseMinutes: seq<nat> := [12, 24, 36, 48, 53, 58, 63, 68, 73, 78, 83]

  predicate Increasing(xs: seq<nat>)
  {
    forall a, b :: 0 <= a < b < |xs| ==> xs[a] < xs[b]
  }

  /** The candidates, in tenths of a second, that lie before `bound`. */
  function PausesBefore(candidates: seq<nat>, bound: int): (ps: seq<nat>)
    ensures forall p :: p in ps <==> p in candidates && 600 * p < bound
    ensures |ps| <= |candidates|
  {
    if |candidates| == 0 then []
    else
      (if 600 * candidates[0] < bound then [candidates[0]] else [])
        + PausesBefore(candidates[1..], bound)
  }

  /** Selecting keeps the candidates' order: increasing candidates give
      increasing markers, each listed once. */
  lemma {:induction false} PausesBeforeIncreasing(candidates: seq<nat>, bound: int)
    requires Increasing(candidates)
    ensures Increasing(PausesBefore(candidates, bound))
  {
    if |candidates| > 0 {
      var rest := PausesBefore(candidates[1..], bound);
      PausesBeforeIncreasing(candidates[1..], bound);
      if 600 * candidates[0] < bound {
        var ps := [candidates[0]] + rest;
        forall a, b | 0 <= a < b < |ps| ensures ps[a] < ps[b] {
          if a == 0 {
            assert ps[b] in candidates[1..];
            var j :| 0 <= j < |candidates[1..]| && candidates[1..][j] == ps[b];
            assert candidates[1 + j] == ps[b];
          } else {
            assert ps[a] == rest[a - 1] && ps[b] == rest[b - 1];
          }
        }
      }
    }
  }

  /** `[pause for pause in [...] if pause < time.max()]`: the period ends
      (in minutes) that the game reached; none when there are no rows. */
  function Pauses(time: seq<int>): (ps: seq<nat>)
    ensures forall p :: p in ps <==> p in PauseMinutes && |time| > 0 && 600 * p < MaxValue(time).value
    ensures Increasing(ps)
  {
    match MaxValue(time)
    case None => []
    case Some(last) =>
      PausesBeforeIncreasing(PauseMinutes, last);
      PausesBefore(PauseMinutes, last)
  }

  /** The height of a period marker, `query(f"time < {pause}")[[...]].max().max()`:
      the highest score either team had before the marker; None when no row
      comes before it. */
  function MarkerHeight(rows: seq<Score>, time: seq<int>, pauseMinutes: nat): (h: Option<int>)
    requires |rows| == |time|
    ensures h.None? <==> forall i :: 0 <= i < |rows| ==> time[i] >= 600 * pauseMinutes
    ensures h.Some? ==> forall i :: 0 <= i < |rows| && time[i] < 600 * pauseMinutes ==>
              rows[i].away <= h.value && rows[i].home <= h.value
    ensures h.Some? ==> exists i :: 0 <= i < |rows| && time[i] < 600 * pauseMinutes
                                   && (rows[i].away == h.value || rows[i].home == h.value)
  {
    if |rows| == 0 then None
    else
      var n := |rows|;
      var front := MarkerHeight(rows[..n - 1], time[..n - 1], pauseMinutes);
      if time[n - 1] >= 600 * pauseMinutes then front
      else
        var top := Max(rows[n - 1].away, rows[n - 1].home);
        match front
        case None => Some(top)
        case Some(m) => Some(Max(m, top))
  }
}
