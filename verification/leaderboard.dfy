/**
 The best individual performances of a game: the box-score rows of both
 teams, without the team-totals rows and without players who did not play
 or were suspended, ranked by points, rebounds, assists, steals and blocks,
 three players per category.
 */
module Leaderboard {
  import opened Basics
  import opened Names

  /** One row of a team's box score; the last row of each team is its
      "Team Totals" row. */
  datatype BoxLine = BoxLine(
    player: string, mp: string,
    fg: int, fga: int, tp: int, tpa: int, ft: int, fta: int,
    orb: int, drb: int, trb: int, ast: int, stl: int, blk: int, tov: int, pf: int,
    pts: int)

  datatype Stat = PTS | TRB | AST | STL | BLK

  /** The ranked categories, in the order they are posted. */
  const BoardStats: seq<Stat> := [PTS, TRB, AST, STL, BLK]

  function StatName(s: Stat): string
  {
    match s
    case PTS => "PTS"
    case TRB => "TRB"
    case AST => "AST"
    case STL => "STL"
    case BLK => "BLK"
  }

  function Value(line: BoxLine, s: Stat): int
  {
    match s
    case PTS => line.pts
    case TRB => line.trb
    case AST => line.ast
    case STL => line.stl
    case BLK => line.blk
  }

  predicate StartsWith(s: string, part: string)
  {
    |part| <= |s| && s[..|part|] == part
  }

  /** `str.contains(part)` for a plain (regex-free) pattern. */
  predicate Contains(s: string, part: string)
  {
    StartsWith(s, part) || (|s| > 0 && Contains(s[1..], part))
  }

  /** Kept by the filter: not a totals row, and the minutes column says
      neither "Did Not Play" / "Not With Team" nor "Suspended". */
  predicate Eligible(line: BoxLine)
  {
    && line.player != "Team Totals"
    && !Contains(line.mp, "Not")
    && !Contains(line.mp, "Suspended")
  }

  /** The positions of the eligible rows, in increasing order. */
  function EligibleRows(lines: seq<BoxLine>): (rows: seq<nat>)
    ensures forall a :: 0 <= a < |rows| ==> rows[a] < |lines|
    ensures forall i: nat :: i in rows <==> i < |lines| && Eligible(lines[i])
    ensures forall a, b :: 0 <= a < b < |rows| ==> rows[a] < rows[b]
  {
    if |lines| == 0 then []
    else
      var n := |lines|;
      var front := EligibleRows(lines[..n - 1]);
      if Eligible(lines[n - 1]) then front + [n - 1] else front
  }

  predicate DistinctRows(rows: seq<nat>)
  {
    forall a, b :: 0 <= a < b < |rows| ==> rows[a] != rows[b]
  }

  /** Position within `candidates` of a largest value. */
  function ArgMax(values: seq<int>, candidates: seq<nat>): (k: nat)
    requires |candidates| > 0
    requires forall i :: 0 <= i < |candidates| ==> candidates[i] < |values|
    ensures k < |candidates|
    ensures forall i :: 0 <= i < |candidates| ==> values[candidates[i]] <= values[candidates[k]]
  {
    if |candidates| == 1 then 0
    else
      var k := ArgMax(values, candidates[1..]);
      if values[candidates[0]] >= values[candidates[k + 1]] then 0 else k + 1
  }

  /** `sort_values(ascending=False).iloc[:k]`: k candidates with the largest
      values, largest first. Among equal values the order is not specified
      by the program (its sort is not stable), so the contract does not fix
      it either. */
  function TopK(values: seq<int>, candidates: seq<nat>, k: nat): (top: seq<nat>)
    requires forall i :: 0 <= i < |candidates| ==> candidates[i] < |values|
    requires DistinctRows(candidates)
    ensures |top| == Min(k, |candidates|)
    ensures forall i :: 0 <= i < |top| ==> top[i] in candidates && top[i] < |values|
    ensures DistinctRows(top)
    ensures forall a, b :: 0 <= a < b < |top| ==> values[top[a]] >= values[top[b]]
    ensures forall c, i :: c in candidates && c !in top && 0 <= i < |top| ==> values[c] <= values[top[i]]
    decreases k
  {
    if k == 0 || |candidates| == 0 then []
    else
      var m := ArgMax(values, candidates);
      var rest := candidates[..m] + candidates[m + 1..];
      RemoveOne(candidates, m);
      var tail := TopK(values, rest, k - 1);
      TopKStep(values, candidates, m, rest, tail);
      [candidates[m]] + tail
  }

  /** Removing one position from a list of distinct rows. */
  lemma RemoveOne(candidates: seq<nat>, m: nat)
    requires m < |candidates|
    requires DistinctRows(candidates)
    ensures var rest := candidates[..m] + candidates[m + 1..];
            && |rest| == |candidates| - 1
            && DistinctRows(rest)
            && candidates[m] !in rest
            && (forall c :: c in rest ==> c in candidates)
            && (forall c :: c in candidates ==> c == candidates[m] || c in rest)
  {
    var rest := candidates[..m] + candidates[m + 1..];
    forall c | c in candidates
      ensures c == candidates[m] || c in rest
    {
      var i :| 0 <= i < |candidates| && candidates[i] == c;
      if i < m {
        assert rest[i] == c;
      } else if i > m {
        assert rest[i - 1] == c;
      }
    }
    forall a, b | 0 <= a < b < |rest|
      ensures rest[a] != rest[b]
    {
      var a' := if a < m then a else a + 1;
      var b' := if b < m then b else b + 1;
      assert rest[a] == candidates[a'] && rest[b] == candidates[b'];
    }
  }

  /** The leader followed by the leaders of the rest keeps every promise
      of `TopK`. */
  lemma TopKStep(values: seq<int>, candidates: seq<nat>, m: nat, rest: seq<nat>, tail: seq<nat>)
    requires forall i :: 0 <= i < |candidates| ==> candidates[i] < |values|
    requires m < |candidates|
    requires forall i :: 0 <= i < |candidates| ==> values[candidates[i]] <= values[candidates[m]]
    requires forall c :: c in rest ==> c in candidates
    requires forall c :: c in candidates ==> c == candidates[m] || c in rest
    requires candidates[m] !in rest
    requires forall i :: 0 <= i < |tail| ==> tail[i] in rest && tail[i] < |values|
    requires DistinctRows(tail)
    requires forall a, b :: 0 <= a < b < |tail| ==> values[tail[a]] >= values[tail[b]]
    requires forall c, i :: c in rest && c !in tail && 0 <= i < |tail| ==> values[c] <= values[tail[i]]
    ensures var top := [candidates[m]] + tail;
            && (forall i :: 0 <= i < |top| ==> top[i] in candidates && top[i] < |values|)
            && DistinctRows(top)
            && (forall a, b :: 0 <= a < b < |top| ==> values[top[a]] >= values[top[b]])
            && (forall c, i :: c in candidates && c !in top && 0 <= i < |top| ==> values[c] <= values[top[i]])
  {
    var top := [candidates[m]] + tail;
    forall i | 0 <= i < |top|
      ensures top[i] in candidates && top[i] < |values|
    {
      if i > 0 {
        assert top[i] == tail[i - 1];
      }
    }
    forall a, b | 0 <= a < b < |top|
      ensures top[a] != top[b] && values[top[a]] >= values[top[b]]
    {
      assert top[b] == tail[b - 1];
      assert top[b] in candidates;
      if a > 0 {
        assert top[a] == tail[a - 1];
      }
    }
    forall c, i | c in candidates && c !in top && 0 <= i < |top|
      ensures values[c] <= values[top[i]]
    {
      var j :| 0 <= j < |candidates| && candidates[j] == c;
      if i > 0 {
        assert top[i] == tail[i - 1];
      }
    }
  }

  /** The stat column of every row. */
  function Column(lines: seq<BoxLine>, s: Stat): (values: seq<int>)
    ensures |values| == |lines|
    ensures forall i :: 0 <= i < |lines| ==> values[i] == Value(lines[i], s)
  {
    seq(|lines|, i requires 0 <= i < |lines| => Value(lines[i], s))
  }

  /** The three leaders of one category: as many as there are eligible rows,
      at most three, all eligible, in non-increasing order of the stat, and no
      eligible row left out has a larger value than a listed one. */
  function Top3(lines: seq<BoxLine>, s: Stat): (top: seq<nat>)
    ensures |top| == Min(3, |EligibleRows(lines)|)
    ensures forall i :: 0 <= i < |top| ==> top[i] < |lines| && Eligible(lines[top[i]])
    ensures DistinctRows(top)
    ensures forall a, b :: 0 <= a < b < |top| ==> Value(lines[top[a]], s) >= Value(lines[top[b]], s)
    ensures forall j :: 0 <= j < |lines| && Eligible(lines[j]) && j !in top ==>
              |top| == 3 && Value(lines[j], s) <= Value(lines[top[2]], s)
  {
    var rows := EligibleRows(lines);
    TopK(Column(lines, s), rows, 3)
  }

  /** One category line: `"PTS: " + ", ".join(f"{shorten(name)} {value}")`. */
  function StatLine(lines: seq<BoxLine>, s: Stat): string
  {
    var top := Top3(lines, s);
    StatName(s) + ": "
      + Join(seq(|top|, i requires 0 <= i < |top| =>
               Shorten(lines[top[i]].player) + " " + IntStr(Value(lines[top[i]], s))), ", ")
      + "\n"
  }

  /** The leaderboard segment: one line per category, in posting order. */
  function PlayersStatus(lines: seq<BoxLine>): string
  {
    Join(seq(|BoardStats|, i requires 0 <= i < |BoardStats| => StatLine(lines, BoardStats[i])), "")
  }
}
