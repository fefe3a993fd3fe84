# NBA game threads, modelled in Dafny

This project models the pure logic of a bot that posts a thread about every
finished NBA game, plus the end-of-season thread about the playoff teams.
For a game, the bot reads the play-by-play (one row per event: period,
remaining clock "M:SS.d", away score, home score). From it the bot computes:

- the number of ties;
- the number of lead changes;
- the largest lead;
- how long each side led.

It then posts a header, the team totals from the box scores, the three
leaders in points, rebounds, assists, steals and blocks, the injury report
of both teams and a link to the source page. Every post is cut to 279
characters. At the end of the season, the bot posts one thread per
conference. The thread covers the first ten teams of the standings, with each
team's cumulative wins (for the chart) and its injury report.

Modules follow the structure of the program:

- `Basics`: `Option`, sums, maxima, `str.split`/`str.join`, decimal rendering and parsing.
- `Dates`: calendar dates, their order and ISO rendering.
- `Names`: `shorten`.
- `Clock`: clock parsing, the elapsed-time axis and the per-row durations.
- `Leads`: ties, lead changes, largest lead, time leading and period markers.
- `Leaderboard`: the eligibility filter and the top three per category.
- `Injuries`: injury lines.
- `Posts`: the 279-character cut.
- `GameThread`: the per-game thread.
- `Season`: the win tally and the end-of-season thread.

Times are integer tenths of a second. The program works in float minutes
(`/ -60`), which changes only the unit: clock readings carry one decimal.
The network (the search for an earlier post, posting, media upload) and
the scraper are not modelled. Their results are inputs instead:

- the play-by-play rows;
- the box scores, or `None` when the scraper raised;
- the injury report;
- the standings;
- the schedule;
- whether the header was already posted;
- each team's abbreviation (the program looks it up in the scraper's table).

Posting becomes "return the list of texts in thread order".

Three details of the program shape the model:

- Lead changes are `(lead < 0).diff().sum()` over the non-zero leads. This
  counts every flip of sign, so `[0, 3, -1, -1, 2, -4]` gives 3
  (`Leads.LeadChangesExample`).
- For an empty play-by-play the program prints `nan` as the largest lead.
  `Leads.LargestLead` returns `None` there, and the header renders it as
  "nan".
- `sort_values` and `sort_index` are not stable sorts. Among equal values
  (or equal dates), the model promises no order.

## Model

| member | source | states |
|---|---|---|
| Names.Shorten | nba_game_plots.py:51-55 | The result splits into the abbreviated first token followed by the unchanged later tokens. It is never longer than the name. It equals the name exactly when the first token has at most two characters or no lower-case letter. Otherwise it is the first character, a dot and the rest of the name. Every character comes from the name or is the dot. |
| Names.ShortenIdempotent | nba_game_plots.py:51-55 | Shortening a shortened name changes nothing. |
| Basics.SplitJoin | nba_game_plots.py:50-55 | Splitting the join of separator-free parts gives back the parts. |
| Basics.JoinSplit | nba_game_plots.py:50-55 | Joining the fields of a split with the same separator gives back the text. |
| Leads.DropDuplicates | nba_game_plots.py:87 | Keeps exactly the score pairs that occur, each once. |
| Leads.TieCount | nba_game_plots.py:86-91 | The tie count is the number of distinct level scores above 0:0. |
| Leads.TieCountInsert | nba_game_plots.py:86-91 | Adding a repeated row, or a row that is not a tie above 0:0 (such as 0:0), does not change the tie count. |
| Leads.TieCountExample | nba_game_plots.py:86-91 | 0:0, 2:0, 2:2, 2:2, 4:2 has one tie. |
| Leads.NonZero | nba_game_plots.py:94 | `replace(0, nan).dropna()` leaves only non-zero leads, keeps every non-zero lead as often as it occurs, and never lengthens. |
| Leads.NonZeroAppend | nba_game_plots.py:94 | Dropping the zeros distributes over concatenation, so the kept leads stay in their order. |
| Leads.LeadChanges | nba_game_plots.py:92-95 | At most one change fewer than there are non-zero leads. |
| Leads.LeadChangesIgnoreLevelRows | nba_game_plots.py:92-95 | Inserting or removing a level row does not change the lead-change count. |
| Leads.LeadChangesSwap | nba_game_plots.py:92-95 | Swapping the teams (negating every lead) does not change the lead-change count. |
| Leads.FlipsParity | nba_game_plots.py:94 | The number of sign flips is odd exactly when the first and last non-zero leads have different signs. |
| Leads.FlipsZero | nba_game_plots.py:94 | There are no sign flips exactly when all non-zero leads have the same sign. |
| Leads.LeadChangesExample | nba_game_plots.py:92-95 | The leads 0, 3, -1, -1, 2, -4 give 3 lead changes. |
| Leads.LargestLead | nba_game_plots.py:96-98 | No value exactly for an empty play-by-play. Otherwise the value is non-negative, at least every absolute lead, and equal to one of them. |
| Leads.LargestLeadSwap | nba_game_plots.py:96-98 | Swapping the teams does not change the largest lead. |
| Clock.ParseSeconds | nba_game_plots.py:101 | A seconds field of digits alone is that many whole seconds. An empty field does not parse. |
| Clock.ParseSecondsAccepts | nba_game_plots.py:101 | A seconds field parses exactly when it is digits with at most one point, at most one digit after the point, and is neither empty nor the point alone. Every other field is rejected (`None`); `float()` raises on such fields as "abc" and "1.2.3". |
| Clock.SecondsWithDecimal | nba_game_plots.py:101 | Whole seconds, a dot and at most one tenth digit, either side possibly empty but not both, read as that many tenths. |
| Clock.ParseClock | nba_game_plots.py:100-102 | A reading parses exactly when it has a colon and both the minutes field and the seconds field parse. Fields after a second colon are ignored. The value is 600 tenths per minute of the minutes field plus the seconds field. |
| Clock.WholeSecondsRoundTrip | nba_game_plots.py:100-102 | A reading "M:SS" of digit strings is M minutes and SS seconds, whatever the number of digits. |
| Clock.ClockRoundTrip | nba_game_plots.py:100-102 | A reading "M:SS.d" of digit strings is M minutes, SS seconds and d tenths. |
| Clock.Elapsed | nba_game_plots.py:103-108 | The elapsed axis has one entry per row and starts at 0. |
| Clock.ElapsedStep | nba_game_plots.py:103-108 | Each step of the axis adds how much the remaining time went down, and nothing when the clock is reset. |
| Clock.ElapsedIsFold | nba_game_plots.py:103-108 | The axis equals a left fold that carries the previous reading and the time so far. |
| Clock.ElapsedMonotone | nba_game_plots.py:103-108 | The elapsed time never decreases. |
| Clock.ElapsedTotal | nba_game_plots.py:103-108 | The final elapsed time is the sum of all clipped decreases of the clock. |
| Clock.Durations | nba_game_plots.py:109 | The first duration is 0, and each later one is the difference of consecutive times. |
| Clock.DurationsTelescope | nba_game_plots.py:109 | The durations add up to the last time minus the first. |
| Clock.DurationsOfElapsed | nba_game_plots.py:103-109 | On the elapsed axis, every duration is non-negative and the durations add up to the final elapsed time. |
| Leads.LedTimeIsCreditedSum | nba_game_plots.py:111-121 | A side's led time is the sum of the duration column after every row where that side does not lead is set to 0, that is, over the rows the query keeps. |
| Leads.LedTimeConservation | nba_game_plots.py:111-126 | Away-led, home-led and level time together make up all the durations. |
| Leads.LedTimeBounds | nba_game_plots.py:111-126 | With non-negative durations, each side's led time is between 0 and the total. |
| Leads.LedTimeSwap | nba_game_plots.py:111-126 | Swapping the teams swaps the two led times. |
| GameThread.Summarize | nba_game_plots.py:86-126 | The header figures: the number of distinct ties, the lead changes and the largest lead of the leads, and each side's own led time over the elapsed-axis durations. There is no largest lead exactly for an empty play-by-play. Both led times are between 0 and the game length and together at most the game length. Together with the level time they make up the game length. |
| GameThread.TitleSingle | nba_game_plots.py:67 | The title is a single line exactly when both abbreviations are. |
| GameThread.LedClockAsWritten | nba_game_plots.py:111-126 | The `Timedelta` components as the program reads them: minutes and seconds are both below 60, and with the dropped whole hours they make up the whole seconds led. |
| GameThread.LedClockWrapsAfterAnHour | nba_game_plots.py:111-126 | A lead of 61 minutes 40 seconds renders as "~1:40". |
| GameThread.LedClock | nba_game_plots.py:111-126 | The minutes and seconds shown add back up to the whole seconds led. |
| GameThread.LedClockUnderAnHour | nba_game_plots.py:111-126 | For leads under an hour, the whole minutes and seconds agree with the program's components. |
| GameThread.LedLineReadsBack | nba_game_plots.py:114-126 | A led line is the abbreviation and " led: ~", followed by a reading that parses back, as a clock reading, to the whole seconds led. |
| GameThread.HeaderLines | nba_game_plots.py:67-126 | With single-line abbreviations, the header splits at line breaks into exactly the title and the five figure lines. |
| GameThread.HeaderFigures | nba_game_plots.py:86-126 | The header has six lines with the title first. After their captions, the ties and the lead changes read back as numbers, the largest lead as a number (or not at all, when there is none), and each led time as its whole seconds. |
| Leads.PausesBefore | nba_game_plots.py:141-145 | The set of minutes kept is exactly the candidate minutes before the bound. |
| Leads.PausesBeforeIncreasing | nba_game_plots.py:141-145 | Selecting keeps the candidates' order: increasing candidates give an increasing list, so no minute is listed twice. |
| Leads.Pauses | nba_game_plots.py:141-145 | The markers are exactly the listed minutes that lie before the end of the game, in increasing order and each once. |
| Leads.MarkerHeight | nba_game_plots.py:146-149 | No height exactly when no row lies before the marker. Otherwise the height is at least both scores of every earlier row and equals one of them. |
| Leaderboard.EligibleRows | nba_game_plots.py:276-283 | Exactly the rows that are not team totals and whose minutes mention neither "Not" nor "Suspended", in increasing order. |
| Leaderboard.TopK | nba_game_plots.py:290-291 | The k largest among distinct candidates (or all of them), distinct, in non-increasing order. No candidate left out beats a listed one. |
| Leaderboard.Top3 | nba_game_plots.py:273-297 | At most three leaders, as many as there are eligible rows. All are eligible and distinct, in non-increasing order of the stat. An eligible row left out means three are listed and it does not beat the third. |
| Posts.Truncate | nba_game_plots.py:162 | The posted text is the prefix of length min(length, 279). |
| Posts.TruncateKeepsPrefix | nba_game_plots.py:162 | A head of at most 279 characters survives the cut of any text it starts. |
| GameThread.HeaderStartsWithTitle | nba_game_plots.py:67-69 | The posted header begins with the title whenever the title fits. |
| Injuries.OfTeam | end_of_season_plots.py:39 | Exactly the report rows of the team, never more rows than the report. A one-row report keeps its row exactly when it is the team's. |
| Injuries.OfTeamAppend | end_of_season_plots.py:39 | Selecting the team's rows distributes over concatenation. With the one-row case this fixes which rows are kept, in report order, each as often as it occurs. |
| Injuries.OfTeamUntil | nba_game_plots.py:305-308 | Exactly the report rows of the team dated on or before the game day. A one-row report keeps its row exactly when it matches. |
| Injuries.OfTeamUntilAppend | nba_game_plots.py:305-308 | Selecting by team and date distributes over concatenation, so rows, order and multiplicity are kept. |
| Injuries.InjuryLine | nba_game_plots.py:315-322 | An injury whose fields have no line break renders as one line. A line break in the status or the description shows up in the line. |
| Injuries.InjuryLineFields | nba_game_plots.py:315-322 | The line is the shortened name, the status, the ISO date and the description, with one space between each. For a status without a space, splitting the line at spaces gives back the name's words, then the status and the date, then the description's words. The season posts build their lines the same way (end_of_season_plots.py:43-50). |
| Injuries.InjuryLines | nba_game_plots.py:313-325 | The injury text is empty exactly when there are no injuries. |
| Injuries.InjuryLinesAreLines | nba_game_plots.py:313-325 | Splitting the injury text at line breaks gives one line per injury, in report order. |
| GameThread.ParseClocks | nba_game_plots.py:100-102 | The clock column parses exactly when every reading parses, and then row by row. |
| GameThread.InjurySegment | nba_game_plots.py:304-326 | A team has no segment exactly when no report row of that team is dated on or before the game. A segment starts with the abbreviation and ":\n". |
| GameThread.InjurySegmentLines | nba_game_plots.py:309-326 | With single-line report rows, a segment splits at line breaks into the team line followed by one line per injury of the team up to the game day, in report order. |
| GameThread.InjurySegments | nba_game_plots.py:303-326 | No segments exactly when neither team has a report row up to the game day. The away team's segment, when there is one, comes first and the home team's last. There is exactly one segment for each team that has a row, so at most two. |
| GameThread.MergeInjuries | nba_game_plots.py:330-331 | Two segments with combined length at most 278 become one segment of at most 279 characters, joined by a line break. Any other list is unchanged. The joined text is the same either way. |
| GameThread.SourceLinkNamesGame | nba_game_plots.py:339-344 | For a four-digit year, the page named by the link is the eight digits of the date, read back as year, month and day, then "0", the home abbreviation and ".html". |
| GameThread.SourceLinkFits | nba_game_plots.py:339-347 | For a four-digit year and a short abbreviation, the link fits one post uncut. |
| GameThread.ComposeThread | nba_game_plots.py:162-346 | Every post has at most 279 characters. The order is header, team totals, leaders (with box scores), merged injury segments, link. Without injury segments the thread ends after the leaders. |
| GameThread.Thread | nba_game_plots.py:162-346 | Every post has at most 279 characters. The cut header comes first and the team totals (or the apology) second. With box scores the leaders come third. With injuries, the next posts are the merged injury segments, each cut, and the link is last. Without injuries there are two posts, or three with box scores. |
| GameThread.PostGame | nba_game_plots.py:58-347 | Nothing is posted when the header was posted before. No posts at all when a clock reading does not parse. Otherwise the thread is posted, with every post at most 279 characters. |
| Season.VisitorOutcome | end_of_season_plots.py:59-61 | The visitor wins exactly when both scores are known and the visitor's is larger. |
| Season.HomeOutcome | end_of_season_plots.py:62-64 | The home team wins exactly when both scores are known and the home team's is larger. |
| Season.OneWinner | end_of_season_plots.py:57-65 | Never both sides win. With both scores known and different, exactly one side wins. With equal or missing scores, neither does. |
| Season.AwayGames | end_of_season_plots.py:59-61 | Exactly the outcomes of the games the team visited. A one-game schedule gives that game's outcome exactly when the team visited. |
| Season.AwayGamesAppend | end_of_season_plots.py:59-61 | Selecting the away games distributes over concatenation, so every game the team visited counts once, in schedule order. |
| Season.HomeGames | end_of_season_plots.py:62-64 | Exactly the outcomes of the games the team hosted. A one-game schedule gives that game's outcome exactly when the team hosted. |
| Season.HomeGamesAppend | end_of_season_plots.py:62-64 | Selecting the home games distributes over concatenation, so every game the team hosted counts once, in schedule order. |
| Season.InsertByDate | end_of_season_plots.py:66 | Inserting one game keeps the list in date order, adds exactly that game, and adds its win to the count. |
| Season.SortByDate | end_of_season_plots.py:66 | The result is in date order, a permutation of the games, with the same length and win count. |
| Season.TeamGames | end_of_season_plots.py:57-66 | The team's away and home games, in date order. The wins are the away wins plus the home wins. |
| Season.WinCount | end_of_season_plots.py:79 | The wins reported never exceed the games played. |
| Season.CumulativeWins | end_of_season_plots.py:69 | The tally starts at the first game's win and goes up by exactly one at each win and by nothing otherwise. It ends at the total win count. |
| Season.TallyMonotone | end_of_season_plots.py:69 | The tally never decreases and never exceeds the number of games so far. |
| Season.InjuryStatus | end_of_season_plots.py:39-55 | The status is empty exactly when the report has no row of the team. Otherwise it is the team's injury lines. |
| Season.TeamTitle | end_of_season_plots.py:79 | The chart title starts with the one-based rank, whatever the team is called. |
| Season.TeamTitleCounts | end_of_season_plots.py:79 | For a team name without a comma, the title has two comma-separated fields. The second reads back as the wins and the games, separated by " in ". |
| Season.PostOf | end_of_season_plots.py:37-87 | One team's post: its title is `Season.TeamTitle` of the team's position, name, wins and games; the wins are at most the games, the text has at most 279 characters, and the text is empty exactly when the team has no injuries. |
| Season.ConferenceThread | end_of_season_plots.py:35-87 | One post for each of the first ten teams of the standings, in standings order. The i-th post carries that team's games, wins and cut injury status, and is titled with position i plus one, the team, its wins and its games. |
| Season.ConferenceThreadTopTen | end_of_season_plots.py:37 | Teams after the tenth do not change a conference's thread. |
| Season.SeasonThreadsAppend | end_of_season_plots.py:35-36 | Each conference's thread starts afresh: the threads of two lists of conferences side by side are the threads of each list. |

## Left out

- Posting, media upload, reply threading and the search for an earlier post: network I/O. Whether the header was posted before is an input.
- The scrapers (`get_pbp`, `get_box_scores`, `get_shot_chart`, `get_schedule`, `get_standings`, `get_injury_report`), `remove_accents` and the team-abbreviation table: foreign calls whose results are inputs.
- The shot chart and the calibration of shot coordinates: float arithmetic with square roots, used only for a picture.
- All plotting: the score chart, the court drawing, the season chart and the injury markers on it. The period-marker positions and heights are modelled; the drawing is not.
- Command-line handling, credential loading and the choice of games by date: configuration glue.
- Clock readings finer than a tenth of a second: the play-by-play carries one decimal.
- Python's leniency in `int()` and `float()` (signs, surrounding spaces, underscores, exponents): readings are assumed to be plain digits. Anything else makes `Clock.ParseClock` return `None` (`Clock.ParseSecondsAccepts`).
- `str.islower`: only ASCII lower-case letters count. Accented letters in names are not modelled.
- GameThread.LedClock: works on exact tenths of a second. The float-minute to nanosecond rounding of `Timedelta` is not modelled.
- The period column of the play-by-play: the program never uses it.
- A missing minutes entry in a box score, which makes `str.contains` yield NaN: every minutes entry is a string.
- Leaderboard.TopK: does not promise the order of rows with equal values, because the program's sort is not stable.
- Season.SortByDate: does not promise the order of games on the same date, because the program's sort is not stable.
- GameThread.TeamsStatus: carries no contract of its own beyond its place in the thread (second post). It is a fixed format with no partner operation.
- GameThread.PostGame: the header shows a led time of an hour or more in whole minutes, using the corrected `GameThread.LedClock`. The program prints the wrapped `Timedelta` minutes (see "## Findings").
- GameThread.PostGame: does not model an empty box-score frame. Its `iloc[-1]` (nba_game_plots.py:167) raises `IndexError`, which `except ValueError` does not catch, so the program stops after the header. The model requires both frames to be non-empty.
- GameThread.PostGame: does not model a failure in the shot-chart code (nba_game_plots.py:195-214), which also ends the thread after the header. The shot chart is not modelled, and the model always goes on to the team totals.
- GameThread.Title, GameThread.GameStatus, GameThread.Figures, GameThread.LedLine, GameThread.SourceLink: fixed formats without contracts of their own. What they promise is stated by `GameThread.TitleSingle`, `GameThread.HeaderLines`, `GameThread.HeaderFigures`, `GameThread.LedLineReadsBack` and `GameThread.SourceLinkNamesGame`.
- GameThread.LargestLeadText: the largest lead, or `nan` when there is none (nba_game_plots.py:96-98). It has no contract of its own; `GameThread.HeaderFigures` states that both forms read back from the header.
- GameThread.TeamSegment: the team totals, or the apology when there is no box score (nba_game_plots.py:165-192). It has no contract of its own; its place in the thread is stated by `GameThread.Thread`.
- Leaderboard.StatLine: one leader line per category (nba_game_plots.py:286-297). It has no contract of its own; the players it names and their order are stated by `Leaderboard.Top3`.
- Season.SeasonThreads: the thread per conference is stated by `Season.SeasonThreadsAppend` and `Season.ConferenceThreadTopTen`. Reply threading within a conference is network I/O.
- Season.TeamTitle: the program prints the standings frame's index label plus one. The model takes that label to be the team's position in the conference standings, because the scraper that builds the frame is not part of this model.
- Leaderboard.PlayersStatus: carries no contract of its own beyond its place in the thread. The ranking it prints is stated by `Leaderboard.Top3`.

## Findings

| source | as written | input that shows it | evidently intended | confidence | as-written member | corrected member |
|---|---|---|---|---|---|---|
| nba_game_plots.py:114-126 | The led time is shown as `components.minutes` and `components.seconds`. The minutes component wraps at 60, because hours are a separate component. | A side led for 61 minutes 40 seconds in a triple-overtime game. The header says "~1:40". | The whole minutes led, "~61:40". | medium, not executed | GameThread.LedClockAsWritten (shown by GameThread.LedClockWrapsAfterAnHour) | GameThread.LedClock |
