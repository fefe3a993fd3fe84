/**
 The thread posted about one finished game: the header with the score
 statistics, the team totals, the individual leaders, the injury report of
 both teams and the link to the source page, each cut to 279 characters.
 The network calls of the program become "append to the list of posts"; the
 charts attached to the first two posts are not modelled.
 */
module GameThread {
  import opened Basics
  import opened Dates
  import opened Clock
  import opened Leads
  import opened Leaderboard
  import opened Injuries
  import opened Posts

  /** One schedule row, with the abbreviations of both teams looked up. */
  datatype Game = Game(
    date: Date, visitorAbbr: string, homeAbbr: string,
    visitorPts: int, homePts: int)

  /** One play-by-play row: period, clock reading and running scores. */
  datatype PbpRow = PbpRow(quarter: nat, clock: string, awayScore: int, homeScore: int)

  /** Both teams' box scores, each ending with its "Team Totals" row. */
  datatype BoxScores = BoxScores(away: seq<BoxLine>, home: seq<BoxLine>)

  // ---------------------------------------------------------------------
  // The header
  // ---------------------------------------------------------------------

  /** The five figures of the header plus the game length, all times in
      tenths of a second. */
  datatype LeadSummary = LeadSummary(
    ties: nat, leadChanges: nat, largestLead: Option<int>,
    awayLed: int, homeLed: int, gameLength: int)

  function Scores(pbp: seq<PbpRow>): (rows: seq<Score>)
    ensures |rows| == |pbp|
    ensures forall i :: 0 <= i < |pbp| ==> rows[i] == Score(pbp[i].awayScore, pbp[i].homeScore)
  {
    seq(|pbp|, i requires 0 <= i < |pbp| => Score(pbp[i].awayScore, pbp[i].homeScore))
  }

  /** The clock column parsed; None as soon as one reading is malformed
      (the program raises and posts nothing). */
  function ParseClocks(pbp: seq<PbpRow>): (r: Option<seq<nat>>)
    ensures r.Some? <==> forall i :: 0 <= i < |pbp| ==> ParseClock(pbp[i].clock).Some?
    ensures r.Some? ==> |r.value| == |pbp|
    ensures r.Some? ==> forall i :: 0 <= i < |pbp| ==> r.value[i] == ParseClock(pbp[i].clock).value
  {
    if |pbp| == 0 then Some([])
    else
      var n := |pbp|;
      match ParseClocks(pbp[..n - 1])
      case None => None
      case Some(front) =>
        match ParseClock(pbp[n - 1].clock)
        case None => None
        case Some(t) => Some(front + [t])
  }

  /** The game length: the elapsed time at the last row. */
  function GameLength(remaining: seq<nat>): int
  {
    if |remaining| == 0 then 0 else Elapsed(remaining)[|remaining| - 1]
  }

  /** The header figures. Away-led and home-led time are each between 0
      and the game length, together at most the game length, and with the
      level time they make up the whole game. */
  function Summarize(rows: seq<Score>, remaining: seq<nat>): (s: LeadSummary)
    requires |rows| == |remaining|
    ensures s.ties == |TieSet(rows)|
    ensures s.leadChanges == LeadChanges(LeadsOf(rows))
    ensures s.largestLead == LargestLead(LeadsOf(rows))
    ensures s.largestLead.None? <==> |rows| == 0
    ensures var d := Durations(Elapsed(remaining));
            s.awayLed == LedTime(rows, d, Away) && s.homeLed == LedTime(rows, d, Home)
    ensures s.gameLength == GameLength(remaining)
    ensures 0 <= s.awayLed <= s.gameLength && 0 <= s.homeLed <= s.gameLength
    ensures s.awayLed + s.homeLed <= s.gameLength
    ensures s.awayLed + s.homeLed
              + LedTime(rows, Durations(Elapsed(remaining)), Level) == s.gameLength
  {
    var durations := Durations(Elapsed(remaining));
    SummaryFacts(rows, remaining);
    LeadSummary(
      TieCount(rows), LeadChanges(LeadsOf(rows)), LargestLead(LeadsOf(rows)),
      LedTime(rows, durations, Away), LedTime(rows, durations, Home), GameLength(remaining))
  }

  lemma SummaryFacts(rows: seq<Score>, remaining: seq<nat>)
    requires |rows| == |remaining|
    ensures var d := Durations(Elapsed(remaining));
            && 0 <= LedTime(rows, d, Away) <= GameLength(remaining)
            && 0 <= LedTime(rows, d, Home) <= GameLength(remaining)
            && 0 <= LedTime(rows, d, Level)
            && LedTime(rows, d, Away) + LedTime(rows, d, Home) + LedTime(rows, d, Level)
                 == GameLength(remaining)
  {
    var d := Durations(Elapsed(remaining));
    if |remaining| > 0 {
      DurationsOfElapsed(remaining);
    }
    assert Sum(d) == GameLength(remaining);
    LedTimeBounds(rows, d, Away);
    LedTimeBounds(rows, d, Home);
    LedTimeBounds(rows, d, Level);
    LedTimeConservation(rows, d);
  }

  /** `"#{away}vs{home} {away_pts}:{home_pts} on {date}"`, also the text the
      duplicate search looks for. */
  function Title(g: Game): string
  {
    "#" + g.visitorAbbr + "vs" + g.homeAbbr + " " + IntStr(g.visitorPts) + ":"
      + IntStr(g.homePts) + " on " + Iso(g.date)
  }

  /** The title is one line exactly when both abbreviations are. */
  lemma TitleSingle(g: Game)
    ensures '\n' !in Title(g) <==> '\n' !in g.visitorAbbr && '\n' !in g.homeAbbr
  {
    IntStrAvoids(g.visitorPts, '\n');
    IntStrAvoids(g.homePts, '\n');
    IsoHasNoNewline(g.date);
    TitleParts(g.visitorAbbr, g.homeAbbr, IntStr(g.visitorPts), IntStr(g.homePts), Iso(g.date));
  }

  lemma TitleParts(away: string, home: string, awayPts: string, homePts: string, date: string)
    requires '\n' !in awayPts && '\n' !in homePts && '\n' !in date
    ensures var t := "#" + away + "vs" + home + " " + awayPts + ":" + homePts + " on " + date;
            '\n' !in t <==> '\n' !in away && '\n' !in home
  {
  }

  lemma IntStrAvoids(i: int, c: char)
    requires !IsDigit(c) && c != '-'
    ensures c !in IntStr(i)
  {
    DigitsAvoid(NatStr(if i < 0 then -i else i), c);
  }

  /** Minutes and seconds of a led time as the program's `Timedelta`
      components give them: the minutes wrap at 60 because hours are a
      separate component. */
  function LedClockAsWritten(tenths: nat): (ms: (nat, nat))
    ensures ms.0 < 60 && ms.1 < 60
    ensures 3600 * (tenths / 36000) + 60 * ms.0 + ms.1 == tenths / 10
  {
    var seconds := tenths / 10;
    assert seconds / 60 / 60 == tenths / 36000;
    ((tenths / 10 / 60) % 60, (tenths / 10) % 60)
  }

  /** A triple-overtime game can have a side lead for more than an hour;
      61 minutes 40 seconds then reads "~1:40". */
  lemma LedClockWrapsAfterAnHour()
    ensures LedClockAsWritten(37000) == (1, 40)
    ensures 60 * LedClockAsWritten(37000).0 + LedClockAsWritten(37000).1 != 37000 / 10
  {
  }

  /** Whole minutes and the remaining seconds of a led time: they always
      add back up to the whole seconds of the time. */
  function LedClock(tenths: nat): (ms: (nat, nat))
    ensures ms.1 < 60
    ensures 60 * ms.0 + ms.1 == tenths / 10
  {
    (tenths / 10 / 60, (tenths / 10) % 60)
  }

  /** Under an hour the program's components and the whole minutes agree. */
  lemma LedClockUnderAnHour(tenths: nat)
    requires tenths < 36000
    ensures LedClock(tenths) == LedClockAsWritten(tenths)
  {
    assert tenths / 10 / 60 < 60;
  }

  /** `"{abbr} led: ~{minutes}:{seconds:02d}"`. */
  function LedLine(abbr: string, tenths: int): string
  {
    var ms := LedClock(if tenths < 0 then 0 else tenths);
    abbr + " led: ~" + (NatStr(ms.0) + ":" + PadNat(ms.1, 2))
  }

  /** The line names the team, and what follows the tilde reads back, as a
      clock reading, as the led time in whole seconds. */
  lemma LedLineReadsBack(abbr: string, tenths: nat)
    ensures var line := LedLine(abbr, tenths);
            && |abbr| + 7 <= |line|
            && line[..|abbr| + 7] == abbr + " led: ~"
            && ParseClock(line[|abbr| + 7..]) == Some(tenths / 10 * 10)
  {
    var ms := LedClock(tenths);
    NatStrRoundTrip(ms.0);
    PadNatRoundTrip(ms.1, 2);
    ClockAfter(abbr + " led: ~", NatStr(ms.0), PadNat(ms.1, 2), ms.0, ms.1);
    WholeSeconds(ms.0, ms.1, tenths / 10);
  }

  /** A caption followed by a clock reading "M:SS": the reading parses back
      to its minutes and seconds. */
  lemma ClockAfter(caption: string, m: string, ss: string, minutes: nat, seconds: nat)
    requires ParseNat(m) == Some(minutes) && ParseNat(ss) == Some(seconds)
    ensures var line := caption + (m + ":" + ss);
            && |caption| <= |line|
            && line[..|caption|] == caption
            && ParseClock(line[|caption|..]) == Some(TenthsPerMinute * minutes + 10 * seconds)
  {
    var line := caption + (m + ":" + ss);
    assert line[..|caption|] == caption;
    assert line[|caption|..] == m + ":" + ss;
    WholeSecondsRoundTrip(m, ss);
  }

  lemma WholeSeconds(minutes: nat, seconds: nat, total: nat)
    requires 60 * minutes + seconds == total
    ensures TenthsPerMinute * minutes + 10 * seconds == total * 10
  {
  }

  /** `str()` of the largest lead; pandas prints a missing maximum as "nan". */
  function LargestLeadText(largest: Option<int>): string
  {
    match largest
    case None => "nan"
    case Some(v) => IntStr(v)
  }

  /** The header text (`game_status`): the title, then one line per figure. */
  function GameStatus(g: Game, s: LeadSummary): string
  {
    Title(g) + Figures(g, s)
  }

  /** The figure lines, each preceded by a line break. */
  function Figures(g: Game, s: LeadSummary): string
  {
    JoinTail(FigureLines(g, s), "\n")
  }

  function FigureLines(g: Game, s: LeadSummary): seq<string>
  {
    [ "Ties: " + NatStr(s.ties),
      "Lead changes: " + NatStr(s.leadChanges),
      "Largest lead: " + LargestLeadText(s.largestLead),
      LedLine(g.visitorAbbr, s.awayLed),
      LedLine(g.homeAbbr, s.homeLed) ]
  }

  /** With single-line abbreviations the header has six lines: the title,
      the ties, the lead changes, the largest lead and the two led times. */
  lemma HeaderLines(g: Game, s: LeadSummary)
    requires '\n' !in g.visitorAbbr && '\n' !in g.homeAbbr
    ensures Split(GameStatus(g, s), '\n') == [Title(g)] + FigureLines(g, s)
  {
    var lines := [Title(g)] + FigureLines(g, s);
    assert lines[1..] == FigureLines(g, s);
    assert GameStatus(g, s) == Join(lines, "\n");
    TitleSingle(g);
    FigureLinesSingle(g, s);
    assert FreeOf(lines, '\n');
    SplitJoin(lines, '\n');
  }

  /** Every figure line is a single line. */
  lemma FigureLinesSingle(g: Game, s: LeadSummary)
    requires '\n' !in g.visitorAbbr && '\n' !in g.homeAbbr
    ensures FreeOf(FigureLines(g, s), '\n')
  {
    var lines := FigureLines(g, s);
    assert '\n' !in lines[0] by { NumberLineSingle("Ties: ", s.ties); }
    assert '\n' !in lines[1] by { NumberLineSingle("Lead changes: ", s.leadChanges); }
    assert '\n' !in lines[2] by { LargestLeadLineSingle(s.largestLead); }
    assert '\n' !in lines[3] by { LedLineSingle(g.visitorAbbr, s.awayLed); }
    assert '\n' !in lines[4] by { LedLineSingle(g.homeAbbr, s.homeLed); }
  }

  lemma NumberLineSingle(caption: string, n: nat)
    requires '\n' !in caption
    ensures '\n' !in caption + NatStr(n)
  {
    DigitsAvoid(NatStr(n), '\n');
    CaptionAvoids(caption, NatStr(n), '\n');
  }

  lemma LargestLeadLineSingle(largest: Option<int>)
    ensures '\n' !in "Largest lead: " + LargestLeadText(largest)
  {
    if largest.Some? {
      IntStrAvoids(largest.value, '\n');
    }
    CaptionAvoids("Largest lead: ", LargestLeadText(largest), '\n');
  }

  lemma LedLineSingle(abbr: string, tenths: int)
    requires '\n' !in abbr
    ensures '\n' !in LedLine(abbr, tenths)
  {
    var ms := LedClock(if tenths < 0 then 0 else tenths);
    DigitsAvoid(NatStr(ms.0), '\n');
    DigitsAvoid(PadNat(ms.1, 2), '\n');
    CaptionAvoids(NatStr(ms.0), ":", '\n');
    CaptionAvoids(NatStr(ms.0) + ":", PadNat(ms.1, 2), '\n');
    CaptionAvoids(abbr, " led: ~", '\n');
    CaptionAvoids(abbr + " led: ~", NatStr(ms.0) + ":" + PadNat(ms.1, 2), '\n');
  }

  /** The figures read back from the header: the ties and the lead changes
      as numbers, the largest lead as a number or "nan", and each led time,
      after its tilde, as a clock reading of the whole seconds led. */
  lemma HeaderFigures(g: Game, s: LeadSummary)
    requires '\n' !in g.visitorAbbr && '\n' !in g.homeAbbr
    requires s.largestLead.Some? ==> s.largestLead.value >= 0
    requires s.awayLed >= 0 && s.homeLed >= 0
    ensures var lines := Split(GameStatus(g, s), '\n');
            && |lines| == 6
            && lines[0] == Title(g)
            && 6 <= |lines[1]| && 14 <= |lines[2]| && 14 <= |lines[3]|
            && |g.visitorAbbr| + 7 <= |lines[4]| && |g.homeAbbr| + 7 <= |lines[5]|
            && ParseNat(lines[1][6..]) == Some(s.ties)
            && ParseNat(lines[2][14..]) == Some(s.leadChanges)
            && (ParseNat(lines[3][14..]).Some? <==> s.largestLead.Some?)
            && (s.largestLead.Some? ==> ParseNat(lines[3][14..]).value == s.largestLead.value)
            && ParseClock(lines[4][|g.visitorAbbr| + 7..]) == Some(s.awayLed / 10 * 10)
            && ParseClock(lines[5][|g.homeAbbr| + 7..]) == Some(s.homeLed / 10 * 10)
  {
    HeaderLines(g, s);
    FiguresReadBack(g, s);
    var lines := [Title(g)] + FigureLines(g, s);
    assert lines[1..] == FigureLines(g, s);
  }

  /** The figure lines one by one, read back after their captions. */
  lemma FiguresReadBack(g: Game, s: LeadSummary)
    requires s.largestLead.Some? ==> s.largestLead.value >= 0
    requires s.awayLed >= 0 && s.homeLed >= 0
    ensures var lines := FigureLines(g, s);
            && 6 <= |lines[0]| && 14 <= |lines[1]| && 14 <= |lines[2]|
            && |g.visitorAbbr| + 7 <= |lines[3]| && |g.homeAbbr| + 7 <= |lines[4]|
            && ParseNat(lines[0][6..]) == Some(s.ties)
            && ParseNat(lines[1][14..]) == Some(s.leadChanges)
            && (ParseNat(lines[2][14..]).Some? <==> s.largestLead.Some?)
            && (s.largestLead.Some? ==> ParseNat(lines[2][14..]).value == s.largestLead.value)
            && ParseClock(lines[3][|g.visitorAbbr| + 7..]) == Some(s.awayLed / 10 * 10)
            && ParseClock(lines[4][|g.homeAbbr| + 7..]) == Some(s.homeLed / 10 * 10)
  {
    NumberReadsBack("Ties: ", s.ties);
    NumberReadsBack("Lead changes: ", s.leadChanges);
    LargestLeadReadsBack(s.largestLead);
    LedLineReadsBack(g.visitorAbbr, s.awayLed);
    LedLineReadsBack(g.homeAbbr, s.homeLed);
  }

  lemma NumberReadsBack(caption: string, n: nat)
    ensures ParseNat((caption + NatStr(n))[|caption|..]) == Some(n)
  {
    assert (caption + NatStr(n))[|caption|..] == NatStr(n);
    NatStrRoundTrip(n);
  }

  lemma LargestLeadReadsBack(largest: Option<int>)
    requires largest.Some? ==> largest.value >= 0
    ensures var field := ("Largest lead: " + LargestLeadText(largest))[14..];
            && (ParseNat(field).Some? <==> largest.Some?)
            && (largest.Some? ==> ParseNat(field).value == largest.value)
  {
    var text := LargestLeadText(largest);
    assert ("Largest lead: " + text)[14..] == text;
    if largest.Some? {
      NatStrRoundTrip(largest.value);
    } else {
      assert !IsDigit(text[0]);
    }
  }

  /** The posted header begins with the title whenever the title itself
      fits. */
  lemma HeaderStartsWithTitle(g: Game, s: LeadSummary)
    ensures |Title(g)| <= Limit ==> StartsWith(Truncate(GameStatus(g, s)), Title(g))
  {
    if |Title(g)| <= Limit {
      TruncateKeepsPrefix(Title(g), Figures(g, s));
    }
  }

  // ---------------------------------------------------------------------
  // Team totals
  // ---------------------------------------------------------------------

  const NoBoxScores: string := "Sorry, no box scores for this game \U{1F937}"

  function MadeOf(name: string, made: int, attempted: int, made': int, attempted': int): string
  {
    name + ": " + IntStr(made) + " of " + IntStr(attempted) + " / "
      + IntStr(made') + " of " + IntStr(attempted') + "\n"
  }

  function Versus(name: string, away: int, home: int): string
  {
    name + ": " + IntStr(away) + " / " + IntStr(home) + "\n"
  }

  /** The team-totals text: shooting as made of attempted, defensive
      rebounds of all rebounds, then the counting stats. */
  function TeamsStatus(a: BoxLine, h: BoxLine): string
  {
    MadeOf("FG", a.fg, a.fga, h.fg, h.fga)
      + MadeOf("3P", a.tp, a.tpa, h.tp, h.tpa)
      + MadeOf("FT", a.ft, a.fta, h.ft, h.fta)
      + MadeOf("DRB", a.drb, a.drb + a.orb, h.drb, h.drb + h.orb)
      + Versus("AST", a.ast, h.ast) + Versus("STL", a.stl, h.stl)
      + Versus("BLK", a.blk, h.blk) + Versus("TOV", a.tov, h.tov)
      + Versus("PF", a.pf, h.pf)
  }

  /** The second post: the team totals (each team's last box-score row), or
      the apology when there are no box scores. */
  function TeamSegment(box: Option<BoxScores>): string
    requires box.Some? ==> |box.value.away| > 0 && |box.value.home| > 0
  {
    match box
    case None => NoBoxScores
    case Some(b) => TeamsStatus(b.away[|b.away| - 1], b.home[|b.home| - 1])
  }

  // ---------------------------------------------------------------------
  // Injuries and the source link
  // ---------------------------------------------------------------------

  /** One team's injury segment: the rows of that team reported up to the
      game day, under the team's abbreviation; None when there are none. */
  function InjurySegment(report: seq<Injury>, team: string, day: Date): (seg: Option<string>)
    ensures seg.None? <==> forall r :: r in report ==> !(r.team == team && OnOrBefore(r.date, day))
    ensures seg.Some? ==> |team| + 2 < |seg.value| && seg.value[..|team| + 2] == team + ":\n"
  {
    var rows := OfTeamUntil(report, team, day);
    if |rows| == 0 then None
    else
      assert rows[0] in rows;
      var text := InjuryLines(rows);
      assert (team + ":\n" + text)[..|team| + 2] == team + ":\n";
      Some(team + ":\n" + text)
  }

  /** A segment is the team's header line followed by one line per injury
      of the team up to the game day, in report order. */
  lemma InjurySegmentLines(report: seq<Injury>, team: string, day: Date)
    requires '\n' !in team
    requires forall r :: r in report ==> SingleLine(r)
    ensures var seg := InjurySegment(report, team, day);
            seg.Some? ==>
              Split(seg.value, '\n') == [team + ":"] + InjuryLineList(OfTeamUntil(report, team, day))
  {
    var rows := OfTeamUntil(report, team, day);
    if |rows| > 0 {
      var lines := InjuryLineList(rows);
      forall i | 0 <= i < |lines|
        ensures '\n' !in lines[i]
      {
        assert rows[i] in rows;
      }
      HeadedLines(team, lines);
    }
  }

  lemma HeadedLines(team: string, lines: seq<string>)
    requires |lines| > 0 && '\n' !in team && FreeOf(lines, '\n')
    ensures Split(team + ":\n" + Join(lines, "\n"), '\n') == [team + ":"] + lines
  {
    var head := team + ":";
    assert team + ":\n" + Join(lines, "\n") == Join([head] + lines, "\n") by {
      JoinCons(head, lines, "\n");
    }
    assert FreeOf([head] + lines, '\n') by {
      CaptionAvoids(team, ":", '\n');
      assert forall i :: 1 <= i < |[head] + lines| ==> ([head] + lines)[i] == lines[i - 1];
    }
    SplitJoin([head] + lines, '\n');
  }

  /** The injury segments of the away team and then the home team: none
      exactly when neither team has a report row up to the game day. */
  function InjurySegments(report: seq<Injury>, g: Game): (segs: seq<string>)
    ensures |segs| == (if InjurySegment(report, g.visitorAbbr, g.date).Some? then 1 else 0)
                      + (if InjurySegment(report, g.homeAbbr, g.date).Some? then 1 else 0)
    ensures |segs| == 0 <==>
              forall r :: r in report ==>
                !((r.team == g.visitorAbbr || r.team == g.homeAbbr) && OnOrBefore(r.date, g.date))
    ensures var away := InjurySegment(report, g.visitorAbbr, g.date);
            away.Some? ==> segs[0] == away.value
    ensures var home := InjurySegment(report, g.homeAbbr, g.date);
            home.Some? ==> segs[|segs| - 1] == home.value
  {
    var away := InjurySegment(report, g.visitorAbbr, g.date);
    var home := InjurySegment(report, g.homeAbbr, g.date);
    match (away, home)
    case (None, None) => []
    case (Some(a), None) => [a]
    case (None, Some(h)) => [h]
    case (Some(a), Some(h)) => [a, h]
  }

  /** Two injury segments that fit one post together, joined by a line
      break, become one; the text posted is the same either way, and the
      merged segment is never cut. */
  function MergeInjuries(segs: seq<string>): (merged: seq<string>)
    ensures |segs| == 2 && |segs[0]| + |segs[1]| <= 278 ==>
              |merged| == 1 && |merged[0]| <= Limit && merged[0] == segs[0] + "\n" + segs[1]
    ensures !(|segs| == 2 && |segs[0]| + |segs[1]| <= 278) ==> merged == segs
    ensures Join(merged, "\n") == Join(segs, "\n")
  {
    if |segs| == 2 && |segs[0]| + |segs[1]| <= 278 then
      JoinTwo(segs[0], segs[1], "\n");
      assert segs == [segs[0], segs[1]];
      assert [segs[0] + "\n" + segs[1]][1..] == [];
      assert JoinTail([], "\n") == "";
      [segs[0] + "\n" + segs[1]]
    else segs
  }

  const SourcePrefix: string :=
    "\nSource & more data: https://www.basketball-reference.com/boxscores/pbp/"

  /** The last post: the play-by-play page of the game. */
  function SourceLink(g: Game): string
  {
    SourcePrefix + (DateDigits(g.date) + ("0" + g.homeAbbr + ".html"))
  }

  /** `{year}{month:02d}{day:02d}`. */
  function DateDigits(d: Date): string
  {
    NatStr(d.year) + PadNat(d.month, 2) + PadNat(d.day, 2)
  }

  /** For a four-digit year the link's page name starts with the eight
      digits of the date, read back as year, month and day, followed by the
      home team's abbreviation. */
  lemma SourceLinkNamesGame(g: Game)
    requires 1000 <= g.date.year < 10000 && g.date.month < 100 && g.date.day < 100
    ensures var page := SourceLink(g)[|SourcePrefix|..];
            && 8 <= |page|
            && ParseNat(page[..8]) == Some(10000 * g.date.year + 100 * g.date.month + g.date.day)
            && page[8..] == "0" + g.homeAbbr + ".html"
  {
    DateDigitsValue(g.date);
    PageParts(SourcePrefix, DateDigits(g.date), "0" + g.homeAbbr + ".html");
  }

  lemma PageParts(prefix: string, digits: string, tail: string)
    ensures var page := (prefix + (digits + tail))[|prefix|..];
            && page == digits + tail
            && page[..|digits|] == digits
            && page[|digits|..] == tail
  {
    assert (prefix + (digits + tail))[|prefix|..] == digits + tail;
    assert (digits + tail)[..|digits|] == digits;
  }

  lemma DateDigitsValue(d: Date)
    requires 1000 <= d.year < 10000 && d.month < 100 && d.day < 100
    ensures |DateDigits(d)| == 8
    ensures ParseNat(DateDigits(d)) == Some(10000 * d.year + 100 * d.month + d.day)
  {
    var y := NatStr(d.year);
    var m := PadNat(d.month, 2);
    var dd := PadNat(d.day, 2);
    assert Pow10(3) == 1000 && Pow10(4) == 10000 && Pow10(2) == 100;
    NatStrLength(d.year, 4);
    NatStrLengthAtLeast(d.year, 3);
    NatStrLength(d.month, 2);
    NatStrLength(d.day, 2);
    NatStrRoundTrip(d.year);
    PadNatRoundTrip(d.month, 2);
    PadNatRoundTrip(d.day, 2);
    DigitFields(y, m, dd, d.year, d.month, d.day);
  }

  /** Four, two and two digits side by side read as one eight-digit number. */
  lemma DigitFields(y: string, m: string, dd: string, year: nat, month: nat, day: nat)
    requires |y| == 4 && |m| == 2 && |dd| == 2
    requires ParseNat(y) == Some(year) && ParseNat(m) == Some(month) && ParseNat(dd) == Some(day)
    ensures |y + m + dd| == 8
    ensures ParseNat(y + m + dd) == Some(10000 * year + 100 * month + day)
  {
    assert Pow10(2) == 100;
    DigitsValueAppend(y, m);
    DigitsValueAppend(y + m, dd);
    var ym := DigitsValue(y + m);
    assert ym == 100 * year + month;
    assert DigitsValue(y + m + dd) == 100 * ym + day;
  }

  /** For any real date and abbreviation the link fits one post uncut. */
  lemma SourceLinkFits(g: Game)
    requires g.date.year < 10000 && g.date.month < 100 && g.date.day < 100
    requires |g.homeAbbr| <= 193
    ensures |SourceLink(g)| <= Limit
    ensures Truncate(SourceLink(g)) == SourceLink(g)
  {
    NatStrLength(g.date.year, 4);
    NatStrLength(g.date.month, 2);
    NatStrLength(g.date.day, 2);
  }

  // ---------------------------------------------------------------------
  // The thread
  // ---------------------------------------------------------------------

  function TruncateAll(texts: seq<string>): (posts: seq<string>)
    ensures |posts| == |texts|
    ensures forall i :: 0 <= i < |texts| ==> posts[i] == Truncate(texts[i])
  {
    seq(|texts|, i requires 0 <= i < |texts| => Truncate(texts[i]))
  }

  lemma ThreeParts(front: seq<string>, middle: seq<string>, last: string)
    ensures var all := front + middle + [last];
            && |all| == |front| + |middle| + 1
            && all[..|front|] == front
            && all[|front|..|all| - 1] == middle
            && all[|all| - 1] == last
  {
    var all := front + middle + [last];
    assert all[..|front|] == front;
    assert all[|front|..|all| - 1] == middle;
  }

  /** Where the injury posts start: after the leaders when there are any. */
  function Offset(players: Option<string>): nat
  {
    if players.Some? then 3 else 2
  }

  /** The posts in order: header, team totals, leaders (only with box
      scores), the injury segments merged when they fit, and the link; with
      no injury segment the thread ends after the leaders. Every post is
      the first at most 279 characters of its segment. */
  function ComposeThread(header: string, teams: string, players: Option<string>,
                         injuries: seq<string>, link: string): (posts: seq<string>)
    ensures forall i :: 0 <= i < |posts| ==> |posts[i]| <= Limit
    ensures |posts| >= 2 && posts[0] == Truncate(header) && posts[1] == Truncate(teams)
    ensures players.Some? ==> |posts| >= 3 && posts[2] == Truncate(players.value)
    ensures |injuries| == 0 ==> |posts| == Offset(players)
    ensures |injuries| > 0 ==>
              && |posts| == Offset(players) + |MergeInjuries(injuries)| + 1
              && posts[Offset(players)..|posts| - 1] == TruncateAll(MergeInjuries(injuries))
              && posts[|posts| - 1] == Truncate(link)
  {
    var front := [Truncate(header), Truncate(teams)]
                 + (if players.Some? then [Truncate(players.value)] else []);
    if |injuries| == 0 then front
    else
      var middle := TruncateAll(MergeInjuries(injuries));
      ThreeParts(front, middle, Truncate(link));
      front + middle + [Truncate(link)]
  }

  /** The thread of a game whose header figures are known: every post at
      most 279 characters, the header first (beginning with the title
      whenever the title fits, see `HeaderStartsWithTitle`), the team totals second, the link last when
      there are injuries, and nothing after the leaders when there are none. */
  function Thread(g: Game, summary: LeadSummary, box: Option<BoxScores>,
                  report: seq<Injury>): (posts: seq<string>)
    requires box.Some? ==> |box.value.away| > 0 && |box.value.home| > 0
    ensures forall i :: 0 <= i < |posts| ==> |posts[i]| <= Limit
    ensures |posts| >= 2
    ensures posts[0] == Truncate(GameStatus(g, summary))
    ensures posts[1] == Truncate(TeamSegment(box))
    ensures box.Some? ==>
              |posts| >= 3 && posts[2] == Truncate(PlayersStatus(box.value.away + box.value.home))
    ensures |InjurySegments(report, g)| == 0 ==> |posts| == if box.Some? then 3 else 2
    ensures var k := if box.Some? then 3 else 2;
            var merged := MergeInjuries(InjurySegments(report, g));
            |InjurySegments(report, g)| > 0 ==>
              && |posts| == k + |merged| + 1
              && posts[k..|posts| - 1] == TruncateAll(merged)
              && posts[|posts| - 1] == Truncate(SourceLink(g))
  {
    var header := GameStatus(g, summary);
    var players: Option<string> := if box.Some? then Some(PlayersStatus(box.value.away + box.value.home)) else None;
    var segs := InjurySegments(report, g);
    assert Offset(players) == if box.Some? then 3 else 2;
    ComposeThread(header, TeamSegment(box), players, segs, SourceLink(g))
  }

  /** `tweet_game`: nothing when the header was already posted; no posts
      at all when a clock reading cannot be parsed; otherwise the thread
      of the figures computed from the play-by-play. */
  function PostGame(g: Game, alreadyPosted: bool, pbp: seq<PbpRow>,
                    box: Option<BoxScores>, report: seq<Injury>): (r: Option<seq<string>>)
    requires box.Some? ==> |box.value.away| > 0 && |box.value.home| > 0
    ensures alreadyPosted ==> r == Some([])
    ensures !alreadyPosted ==>
              (r.Some? <==> forall i :: 0 <= i < |pbp| ==> ParseClock(pbp[i].clock).Some?)
    ensures r.Some? ==> forall i :: 0 <= i < |r.value| ==> |r.value[i]| <= Limit
    ensures r.Some? && !alreadyPosted ==>
              && ParseClocks(pbp).Some?
              && r.value == Thread(g, Summarize(Scores(pbp), ParseClocks(pbp).value), box, report)
  {
    if alreadyPosted then Some([])
    else
      match ParseClocks(pbp)
      case None => None
      case Some(remaining) => Some(Thread(g, Summarize(Scores(pbp), remaining), box, report))
  }
}
