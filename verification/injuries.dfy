/**
 The injury report as posted: one line per injury, the player's shortened
 name, status, date and description separated by single spaces.
 */
module Injuries {
  import opened Basics
  import opened Dates
  import opened Names

  /** One row of the injury report; `team` is the team's abbreviation. */
  datatype Injury = Injury(player: string, team: string, status: string, date: Date, description: string)

  /** `" ".join([shorten(player), status, str(date), injury])`: one line
      exactly when the fields have none, as far as the status and the
      description go (the shortened name only keeps characters of the name). */
  function InjuryLine(injury: Injury): (line: string)
    ensures SingleLine(injury) ==> '\n' !in line
    ensures '\n' in injury.status || '\n' in injury.description ==> '\n' in line
  {
    var parts := [Shorten(injury.player), injury.status, Iso(injury.date), injury.description];
    LineOfParts(parts, SingleLine(injury));
    Join(parts, " ")
  }

  /** The line reads back: the shortened name, the status, the date and the
      description with one space between each; for a status without a space,
      splitting the line at spaces gives the name's words, the status, the
      date and the description's words. */
  lemma InjuryLineFields(injury: Injury)
    ensures InjuryLine(injury)
              == Shorten(injury.player) + " " + injury.status + " " + Iso(injury.date) + " " + injury.description
    ensures ' ' !in injury.status ==>
              Split(InjuryLine(injury), ' ')
                == Split(Shorten(injury.player), ' ') + [injury.status, Iso(injury.date)]
                   + Split(injury.description, ' ')
  {
    JoinFour(Shorten(injury.player), injury.status, Iso(injury.date), injury.description, " ");
    if ' ' !in injury.status {
      IsoAvoids(injury.date, ' ');
      SpaceFields(Shorten(injury.player), injury.status, Iso(injury.date), injury.description);
    }
  }

  lemma JoinFour(a: string, b: string, c: string, d: string, sep: string)
    ensures Join([a, b, c, d], sep) == a + sep + b + sep + c + sep + d
  {
    JoinCons(a, [b, c, d], sep);
    JoinCons(b, [c, d], sep);
    JoinTwo(c, d, sep);
    assert [b, c, d] == [b] + [c, d];
    assert [a, b, c, d] == [a] + [b, c, d];
  }

  /** Splitting four space-separated texts when the middle two have no space. */
  lemma SpaceFields(name: string, status: string, date: string, text: string)
    requires ' ' !in status && ' ' !in date
    ensures Split(name + " " + status + " " + date + " " + text, ' ')
              == Split(name, ' ') + [status, date] + Split(text, ' ')
  {
    var last := date + [' '] + text;
    var middle := status + [' '] + last;
    assert Split(last, ' ') == [date] + Split(text, ' ') by {
      SplitAtSep(date, text, ' ');
      SplitWithout(date, ' ');
    }
    assert Split(middle, ' ') == [status, date] + Split(text, ' ') by {
      SplitAtSep(status, last, ' ');
      SplitWithout(status, ' ');
    }
    assert name + " " + status + " " + date + " " + text == name + [' '] + middle;
    SplitAtSep(name, middle, ' ');
  }

  lemma LineOfParts(parts: seq<string>, single: bool)
    requires |parts| == 4 && '\n' !in parts[2]
    requires single ==> '\n' !in parts[0] && '\n' !in parts[1] && '\n' !in parts[3]
    ensures single ==> '\n' !in Join(parts, " ")
    ensures '\n' in parts[1] || '\n' in parts[3] ==> '\n' in Join(parts, " ")
  {
    if single {
      JoinAvoids(parts, " ", '\n');
    }
    if '\n' in parts[1] {
      JoinHas(parts, " ", 1, '\n');
    } else if '\n' in parts[3] {
      JoinHas(parts, " ", 3, '\n');
    }
  }

  function InjuryLineList(injuries: seq<Injury>): (lines: seq<string>)
    ensures |lines| == |injuries|
    ensures forall i :: 0 <= i < |injuries| ==> lines[i] == InjuryLine(injuries[i])
  {
    seq(|injuries|, i requires 0 <= i < |injuries| => InjuryLine(injuries[i]))
  }

  /** `"\n".join(...)` over the injuries: empty exactly when there are none. */
  function InjuryLines(injuries: seq<Injury>): (text: string)
    ensures text == "" <==> |injuries| == 0
  {
    JoinNonEmpty(injuries);
    Join(InjuryLineList(injuries), "\n")
  }

  /** No field of the row contains a line break (the report is tabular). */
  predicate SingleLine(injury: Injury)
  {
    '\n' !in injury.player && '\n' !in injury.status && '\n' !in injury.description
  }

  /** The text has exactly one line per injury, in report order. */
  lemma InjuryLinesAreLines(injuries: seq<Injury>)
    requires |injuries| >= 1
    requires forall i :: 0 <= i < |injuries| ==> SingleLine(injuries[i])
    ensures Split(InjuryLines(injuries), '\n') == InjuryLineList(injuries)
  {
    var lines := InjuryLineList(injuries);
    assert FreeOf(lines, '\n');
    SplitJoin(lines, '\n');
  }

  /** The rows of one team, in report order. */
  function OfTeam(injuries: seq<Injury>, team: string): (rows: seq<Injury>)
    ensures forall r :: r in rows <==> r in injuries && r.team == team
    ensures |rows| <= |injuries|
    ensures |injuries| == 1 ==> rows == if injuries[0].team == team then injuries else []
  {
    if |injuries| == 0 then []
    else (if injuries[0].team == team then [injuries[0]] else []) + OfTeam(injuries[1..], team)
  }

  /** Filtering distributes over concatenation: together with the single
      row case this pins down the rows and their order and multiplicity. */
  lemma {:induction false} OfTeamAppend(a: seq<Injury>, b: seq<Injury>, team: string)
    ensures OfTeam(a + b, team) == OfTeam(a, team) + OfTeam(b, team)
    decreases |a|
  {
    if |a| == 0 {
      assert a + b == b;
    } else {
      assert (a + b)[0] == a[0];
      assert (a + b)[1..] == a[1..] + b;
      OfTeamAppend(a[1..], b, team);
    }
  }

  /** The rows of one team reported on or before a day, in report order. */
  function OfTeamUntil(injuries: seq<Injury>, team: string, day: Date): (rows: seq<Injury>)
    ensures forall r :: r in rows <==> r in injuries && r.team == team && OnOrBefore(r.date, day)
    ensures |rows| <= |injuries|
    ensures |injuries| == 1 ==>
              rows == if injuries[0].team == team && OnOrBefore(injuries[0].date, day) then injuries else []
  {
    if |injuries| == 0 then []
    else
      (if injuries[0].team == team && OnOrBefore(injuries[0].date, day) then [injuries[0]] else [])
        + OfTeamUntil(injuries[1..], team, day)
  }

  lemma {:induction false} OfTeamUntilAppend(a: seq<Injury>, b: seq<Injury>, team: string, day: Date)
    ensures OfTeamUntil(a + b, team, day) == OfTeamUntil(a, team, day) + OfTeamUntil(b, team, day)
    decreases |a|
  {
    if |a| == 0 {
      assert a + b == b;
    } else {
      assert (a + b)[0] == a[0];
      assert (a + b)[1..] == a[1..] + b;
      OfTeamUntilAppend(a[1..], b, team, day);
    }
  }

  lemma JoinNonEmpty(injuries: seq<Injury>)
    ensures |injuries| >= 1 ==> |Join(InjuryLineList(injuries), "\n")| > 0
  {
    if |injuries| == 0 {
      return;
    }
    var lines := InjuryLineList(injuries);
    var parts := [Shorten(injuries[0].player), injuries[0].status, Iso(injuries[0].date), injuries[0].description];
    JoinTailLength(parts[1..], " ");
    assert |lines[0]| >= 3;
  }
}
