/**
 The end-of-season thread: for the first ten teams of each conference's
 standings, the team's wins accumulated over its games in date order (the
 chart) and the team's injury report (the posted text).
 */
module Season {
  import opened Basics
  import opened Dates
  import opened Injuries
  import opened Posts

  /** One schedule row; the points are missing (NaN) for a game not yet played. */
  datatype Game = Game(date: Date, visitor: string, home: string,
                       visitorPts: Option<int>, homePts: Option<int>)

  /** One row of a conference's standings, best team first, with the
      team's abbreviation looked up. */
  datatype Standing = Standing(team: string, abbr: string)

  /** One game seen from one team: its date and whether the team won. */
  datatype Outcome = Outcome(date: Date, won: bool)

  // ---------------------------------------------------------------------
  // Win indicator
  // ---------------------------------------------------------------------

  /** `a > b` on pandas columns: a comparison with a missing value is false. */
  predicate Beats(a: Option<int>, b: Option<int>)
  {
    a.Some? && b.Some? && a.value > b.value
  }

  /** `eval("VISITOR_PTS > HOME_PTS")` for the visiting team. */
  function VisitorOutcome(g: Game): (o: Outcome)
    ensures o.date == g.date
    ensures o.won <==> g.visitorPts.Some? && g.homePts.Some? && g.visitorPts.value > g.homePts.value
  {
    Outcome(g.date, Beats(g.visitorPts, g.homePts))
  }

  /** `eval("VISITOR_PTS < HOME_PTS")` for the home team. */
  function HomeOutcome(g: Game): (o: Outcome)
    ensures o.date == g.date
    ensures o.won <==> g.visitorPts.Some? && g.homePts.Some? && g.visitorPts.value < g.homePts.value
  {
    Outcome(g.date, Beats(g.homePts, g.visitorPts))
  }

  /** No game is won by both sides; a played game with different points is
      won by exactly one; equal points or a missing score is a win for
      neither. */
  lemma {:induction false} OneWinner(g: Game)
    ensures !(VisitorOutcome(g).won && HomeOutcome(g).won)
    ensures g.visitorPts.Some? && g.homePts.Some? && g.visitorPts != g.homePts ==>
              VisitorOutcome(g).won != HomeOutcome(g).won
    ensures g.visitorPts == g.homePts || g.visitorPts.None? || g.homePts.None? ==>
              !VisitorOutcome(g).won && !HomeOutcome(g).won
  {
    var v := VisitorOutcome(g);
    var h := HomeOutcome(g);
    assert v.won <==> g.visitorPts.Some? && g.homePts.Some? && g.visitorPts.value > g.homePts.value;
    assert h.won <==> g.visitorPts.Some? && g.homePts.Some? && g.visitorPts.value < g.homePts.value;
  }

  /** The team's away games, in schedule order. */
  function AwayGames(schedule: seq<Game>, team: string): (games: seq<Outcome>)
    ensures forall o :: o in games <==> exists g :: g in schedule && g.visitor == team && o == VisitorOutcome(g)
    ensures |games| <= |schedule|
    ensures |schedule| == 1 ==> games == if schedule[0].visitor == team then [VisitorOutcome(schedule[0])] else []
  {
    if |schedule| == 0 then []
    else
      var n := |schedule|;
      var front := AwayGames(schedule[..n - 1], team);
      assert forall g :: g in schedule <==> g in schedule[..n - 1] || g == schedule[n - 1];
      if schedule[n - 1].visitor == team then front + [VisitorOutcome(schedule[n - 1])] else front
  }

  lemma {:induction false} AwayGamesAppend(a: seq<Game>, b: seq<Game>, team: string)
    ensures AwayGames(a + b, team) == AwayGames(a, team) + AwayGames(b, team)
    decreases |b|
  {
    if |b| == 0 {
      assert a + b == a;
    } else {
      var n := |b|;
      AwayGamesAppend(a, b[..n - 1], team);
      assert (a + b)[..|a + b| - 1] == a + b[..n - 1];
      assert (a + b)[|a + b| - 1] == b[n - 1];
    }
  }

  /** The team's home games, in schedule order. */
  function HomeGames(schedule: seq<Game>, team: string): (games: seq<Outcome>)
    ensures forall o :: o in games <==> exists g :: g in schedule && g.home == team && o == HomeOutcome(g)
    ensures |games| <= |schedule|
    ensures |schedule| == 1 ==> games == if schedule[0].home == team then [HomeOutcome(schedule[0])] else []
  {
    if |schedule| == 0 then []
    else
      var n := |schedule|;
      var front := HomeGames(schedule[..n - 1], team);
      assert forall g :: g in schedule <==> g in schedule[..n - 1] || g == schedule[n - 1];
      if schedule[n - 1].home == team then front + [HomeOutcome(schedule[n - 1])] else front
  }

  lemma {:induction false} HomeGamesAppend(a: seq<Game>, b: seq<Game>, team: string)
    ensures HomeGames(a + b, team) == HomeGames(a, team) + HomeGames(b, team)
    decreases |b|
  {
    if |b| == 0 {
      assert a + b == a;
    } else {
      var n := |b|;
      HomeGamesAppend(a, b[..n - 1], team);
      assert (a + b)[..|a + b| - 1] == a + b[..n - 1];
      assert (a + b)[|a + b| - 1] == b[n - 1];
    }
  }

  // ---------------------------------------------------------------------
  // Ordering by date
  // ---------------------------------------------------------------------

  predicate SortedByDate(games: seq<Outcome>)
  {
    forall i, j :: 0 <= i < j < |games| ==> OnOrBefore(games[i].date, games[j].date)
  }

  /** The number of games won. */
  function WinCount(games: seq<Outcome>): (wins: nat)
    ensures wins <= |games|
  {
    if |games| == 0 then 0
    else WinCount(games[..|games| - 1]) + (if games[|games| - 1].won then 1 else 0)
  }

  lemma {:induction false} WinCountAppend(a: seq<Outcome>, b: seq<Outcome>)
    ensures WinCount(a + b) == WinCount(a) + WinCount(b)
    decreases |b|
  {
    if |b| > 0 {
      var n := |b|;
      WinCountAppend(a, b[..n - 1]);
      assert (a + b)[..|a + b| - 1] == a + b[..n - 1];
    } else {
      assert a + b == a;
    }
  }

  /** Placing one game into a date-ordered list: the list stays ordered, no
      game is lost or added, and the win count grows by that game's win. */
  function InsertByDate(o: Outcome, games: seq<Outcome>): (r: seq<Outcome>)
    requires SortedByDate(games)
    ensures SortedByDate(r)
    ensures multiset(r) == multiset(games) + multiset{o}
    ensures WinCount(r) == WinCount(games) + (if o.won then 1 else 0)
  {
    if |games| == 0 then
      assert [o][..0] == [];
      [o]
    else if OnOrBefore(o.date, games[0].date) then
      InsertInFront(o, games);
      ConsCounts(o, games);
      [o] + games
    else
      var rest := InsertByDate(o, games[1..]);
      InsertBehind(o, games, rest);
      ConsCounts(games[0], rest);
      ConsCounts(games[0], games[1..]);
      assert games == [games[0]] + games[1..];
      [games[0]] + rest
  }

  /** A game put in front of the list adds itself and its win. */
  lemma ConsCounts(o: Outcome, games: seq<Outcome>)
    ensures multiset([o] + games) == multiset(games) + multiset{o}
    ensures WinCount([o] + games) == WinCount(games) + (if o.won then 1 else 0)
  {
    WinCountAppend([o], games);
    assert [o][..0] == [];
  }

  /** A game dated on or before the first one goes in front of it. */
  lemma InsertInFront(o: Outcome, games: seq<Outcome>)
    requires |games| > 0 && SortedByDate(games)
    requires OnOrBefore(o.date, games[0].date)
    ensures SortedByDate([o] + games)
  {
    var r := [o] + games;
    forall i, j | 0 <= i < j < |r|
      ensures OnOrBefore(r[i].date, r[j].date)
    {
      assert r[j] == games[j - 1];
      if i > 0 {
        assert r[i] == games[i - 1];
      } else if j > 1 {
        assert OnOrBefore(games[0].date, games[j - 1].date);
      }
    }
  }

  /** A game dated after the first one goes behind it: the first game is
      on or before every game of the rest. */
  lemma InsertBehind(o: Outcome, games: seq<Outcome>, rest: seq<Outcome>)
    requires |games| > 0 && SortedByDate(games)
    requires !OnOrBefore(o.date, games[0].date)
    requires SortedByDate(rest)
    requires multiset(rest) == multiset(games[1..]) + multiset{o}
    ensures SortedByDate([games[0]] + rest)
  {
    forall k | 0 <= k < |rest|
      ensures OnOrBefore(games[0].date, rest[k].date)
    {
      assert rest[k] in multiset(rest);
      if rest[k] != o {
        assert rest[k] in games[1..];
        var j :| 0 <= j < |games| - 1 && games[1..][j] == rest[k];
        assert games[j + 1] == rest[k];
      }
    }
    var r := [games[0]] + rest;
    forall i, j | 0 <= i < j < |r|
      ensures OnOrBefore(r[i].date, r[j].date)
    {
      assert r[j] == rest[j - 1];
      if i > 0 {
        assert r[i] == rest[i - 1];
      }
    }
  }

  /** `sort_index()`: the games ordered by date. Games on the same date
      keep no promised order, as the program's sort is not stable. */
  function SortByDate(games: seq<Outcome>): (sorted: seq<Outcome>)
    ensures SortedByDate(sorted)
    ensures multiset(sorted) == multiset(games)
    ensures |sorted| == |games|
    ensures WinCount(sorted) == WinCount(games)
  {
    if |games| == 0 then []
    else
      var n := |games|;
      var front := SortByDate(games[..n - 1]);
      assert games == games[..n - 1] + [games[n - 1]];
      var r := InsertByDate(games[n - 1], front);
      assert |r| == |multiset(r)|;
      r
  }

  /** The team's games: away games and home games, ordered by date. */
  function TeamGames(schedule: seq<Game>, team: string): (games: seq<Outcome>)
    ensures SortedByDate(games)
    ensures multiset(games) == multiset(AwayGames(schedule, team)) + multiset(HomeGames(schedule, team))
    ensures WinCount(games) == WinCount(AwayGames(schedule, team)) + WinCount(HomeGames(schedule, team))
  {
    WinCountAppend(AwayGames(schedule, team), HomeGames(schedule, team));
    SortByDate(AwayGames(schedule, team) + HomeGames(schedule, team))
  }

  // ---------------------------------------------------------------------
  // The cumulative tally
  // ---------------------------------------------------------------------

  /** `games.cumsum()`: wins so far after each game. It starts at 0 or 1,
      goes up by 0 or 1 per game, exactly by 1 at a win, and ends at the
      total win count. */
  function CumulativeWins(games: seq<Outcome>): (tally: seq<nat>)
    ensures |tally| == |games|
    ensures |games| > 0 ==> tally[0] == (if games[0].won then 1 else 0)
    ensures forall i :: 0 < i < |games| ==>
              tally[i] == tally[i - 1] + (if games[i].won then 1 else 0)
    ensures |games| > 0 ==> tally[|games| - 1] == WinCount(games)
  {
    if |games| == 0 then []
    else
      var n := |games|;
      var front := CumulativeWins(games[..n - 1]);
      assert n == 1 ==> games[..n - 1] == [];
      front + [WinCount(games)]
  }

  /** The tally never goes down and never exceeds the number of games so far. */
  lemma {:induction false} TallyMonotone(games: seq<Outcome>, i: nat, j: nat)
    requires i <= j < |games|
    ensures CumulativeWins(games)[i] <= CumulativeWins(games)[j] <= j + 1
    decreases j
  {
    var tally := CumulativeWins(games);
    if j > 0 {
      if i < j {
        TallyMonotone(games, i, j - 1);
      } else {
        TallyMonotone(games, j - 1, j - 1);
      }
    }
  }

  // ---------------------------------------------------------------------
  // Posts
  // ---------------------------------------------------------------------

  /** The injury status of one team: one line per injury of the team,
      empty when it has none (no date filter at the end of the season). */
  function InjuryStatus(report: seq<Injury>, abbr: string): (status: string)
    ensures status == "" <==> forall r :: r in report ==> r.team != abbr
    ensures status != "" ==> status == InjuryLines(OfTeam(report, abbr))
  {
    var rows := OfTeam(report, abbr);
    if |rows| == 0 then ""
    else
      assert rows[0] in rows;
      InjuryLines(rows)
  }

  /** What one team contributes to the thread: the chart title (rank,
      team, wins and games) and the posted text. */
  datatype TeamPost = TeamPost(title: string, wins: nat, games: nat, text: string)

  /** The chart title `"{rank + 1}. {team}, {wins} in {games}"`: it starts
      with the one-based rank, whatever the team is called. */
  function TeamTitle(rank: nat, team: string, wins: nat, games: nat): (t: string)
    ensures ParseNat(Split(t, '.')[0]) == Some(rank + 1)
  {
    var rest := ". " + team + ", " + NatStr(wins) + " in " + NatStr(games);
    LeadingNumber(rank + 1, rest);
    NatStr(rank + 1) + rest
  }

  lemma LeadingNumber(n: nat, rest: string)
    requires |rest| > 0 && rest[0] == '.'
    ensures ParseNat(Split(NatStr(n) + rest, '.')[0]) == Some(n)
  {
    DigitsAvoid(NatStr(n), '.');
    SplitFieldPrefix(NatStr(n), rest, '.');
    assert rest == [rest[0]] + rest[1..];
    assert Split(rest, '.')[0] == "";
    assert NatStr(n) + "" == NatStr(n);
    NatStrRoundTrip(n);
  }

  /** For a team name without a comma the title reads back: the part after
      the comma is the wins and the games, separated by " in ". */
  lemma TeamTitleCounts(rank: nat, team: string, wins: nat, games: nat)
    requires ',' !in team
    ensures var fields := Split(TeamTitle(rank, team, wins, games), ',');
            && |fields| == 2
            && fields[0] == NatStr(rank + 1) + ". " + team
            && Split(fields[1], ' ') == ["", NatStr(wins), "in", NatStr(games)]
            && ParseNat(Split(fields[1], ' ')[1]) == Some(wins)
            && ParseNat(Split(fields[1], ' ')[3]) == Some(games)
  {
    var head := NatStr(rank + 1) + ". " + team;
    var tail := " " + NatStr(wins) + " in " + NatStr(games);
    TitleAtComma(NatStr(rank + 1), team, NatStr(wins), NatStr(games));
    RankAvoids(NatStr(rank + 1), team);
    CountsJoin(NatStr(wins), NatStr(games));
    TwoFields(head, tail, ',');
    NatStrRoundTrip(wins);
    NatStrRoundTrip(games);
  }

  lemma TitleAtComma(r: string, team: string, w: string, g: string)
    ensures r + (". " + team + ", " + w + " in " + g)
              == (r + ". " + team) + "," + (" " + w + " in " + g)
  {
    assert ", " == "," + " ";
  }

  lemma RankAvoids(rank: string, team: string)
    requires AllDigits(rank) && ',' !in team
    ensures ',' !in rank + ". " + team
  {
    DigitsAvoid(rank, ',');
    CaptionAvoids(rank, ". ", ',');
    CaptionAvoids(rank + ". ", team, ',');
  }

  lemma TwoFields(head: string, tail: string, sep: char)
    requires sep !in head && sep !in tail
    ensures Split(head + [sep] + tail, sep) == [head, tail]
  {
    JoinTwo(head, tail, [sep]);
    SplitJoin([head, tail], sep);
  }

  /** `" {wins} in {games}"` is the four space-separated fields "", the
      wins, "in" and the games; none of them holds a comma. */
  lemma CountsJoin(w: string, g: string)
    requires AllDigits(w) && AllDigits(g)
    ensures var tail := " " + w + " in " + g;
            && ',' !in tail
            && Split(tail, ' ') == ["", w, "in", g]
  {
    var parts := ["", w, "in", g];
    var tail := " " + w + " in " + g;
    DigitsAvoid(w, ' ');
    DigitsAvoid(g, ' ');
    DigitsAvoid(w, ',');
    DigitsAvoid(g, ',');
    JoinCons("", [w, "in", g], " ");
    JoinCons(w, ["in", g], " ");
    JoinTwo("in", g, " ");
    assert parts == [""] + [w, "in", g];
    assert [w, "in", g] == [w] + ["in", g];
    assert Join(parts, " ") == tail;
    assert FreeOf(parts, ' ');
    SplitJoin(parts, ' ');
    CaptionAvoids(" " + w + " in ", g, ',');
  }

  function PostOf(rank: nat, s: Standing, schedule: seq<Game>, report: seq<Injury>): (p: TeamPost)
    ensures p.wins <= p.games
    ensures p.title == TeamTitle(rank, s.team, p.wins, p.games)
    ensures p.games == |TeamGames(schedule, s.team)|
    ensures p.wins == WinCount(TeamGames(schedule, s.team))
    ensures |p.text| <= Limit
    ensures p.text == "" <==> forall r :: r in report ==> r.team != s.abbr
    ensures p.text == Truncate(InjuryStatus(report, s.abbr))
  {
    var games := TeamGames(schedule, s.team);
    var wins := WinCount(games);
    var status := InjuryStatus(report, s.abbr);
    var text := Truncate(status);
    assert text == "" <==> status == "";
    TeamPost(TeamTitle(rank, s.team, wins, |games|), wins, |games|, text)
  }

  /** One conference's thread: a post for each of the first ten teams of
      the standings, in standings order. */
  function ConferenceThread(standings: seq<Standing>, schedule: seq<Game>,
                            report: seq<Injury>): (posts: seq<TeamPost>)
    ensures |posts| == Min(10, |standings|)
    ensures forall i :: 0 <= i < |posts| ==>
              && posts[i].games == |TeamGames(schedule, standings[i].team)|
              && posts[i].wins == WinCount(TeamGames(schedule, standings[i].team))
              && posts[i].text == Truncate(InjuryStatus(report, standings[i].abbr))
              && posts[i].title == TeamTitle(i, standings[i].team, posts[i].wins, posts[i].games)
  {
    var n := Min(10, |standings|);
    seq(n, i requires 0 <= i < n => PostOf(i, standings[i], schedule, report))
  }

  /** A thread per conference, each starting afresh. */
  function SeasonThreads(conferences: seq<seq<Standing>>, schedule: seq<Game>,
                         report: seq<Injury>): (threads: seq<seq<TeamPost>>)
    ensures |threads| == |conferences|
    ensures forall c :: 0 <= c < |threads| ==>
              threads[c] == ConferenceThread(conferences[c], schedule, report)
  {
    seq(|conferences|, c requires 0 <= c < |conferences| =>
          ConferenceThread(conferences[c], schedule, report))
  }

  /** `api_reply = None` at each conference: the threads of two lists of
      conferences side by side are the threads of each list; no conference
      depends on the one before it. */
  lemma SeasonThreadsAppend(a: seq<seq<Standing>>, b: seq<seq<Standing>>,
                            schedule: seq<Game>, report: seq<Injury>)
    ensures SeasonThreads(a + b, schedule, report)
              == SeasonThreads(a, schedule, report) + SeasonThreads(b, schedule, report)
  {
    var whole := SeasonThreads(a + b, schedule, report);
    var parts := SeasonThreads(a, schedule, report) + SeasonThreads(b, schedule, report);
    forall c | 0 <= c < |whole|
      ensures whole[c] == parts[c]
    {
      if c < |a| {
        assert (a + b)[c] == a[c];
      } else {
        assert (a + b)[c] == b[c - |a|];
      }
    }
  }

  /** `iloc[:10]`: teams after the tenth play no part in the thread. */
  lemma ConferenceThreadTopTen(standings: seq<Standing>, schedule: seq<Game>, report: seq<Injury>)
    ensures ConferenceThread(standings, schedule, report)
              == ConferenceThread(standings[..Min(10, |standings|)], schedule, report)
  {
    var top := standings[..Min(10, |standings|)];
    var whole := ConferenceThread(standings, schedule, report);
    var cut := ConferenceThread(top, schedule, report);
    forall i | 0 <= i < |whole|
      ensures whole[i] == cut[i]
    {
      assert top[i] == standings[i];
    }
  }
}
