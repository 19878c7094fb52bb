/**
 * The attribution reporter: it loads the roster (campaign identifier to
 * name and email), reads the click log line by line, keeps the clicks
 * whose identifier is in the roster, and appends one report line per kept
 * click to the report file.
 */
module Tracker {
  import opened Wrappers
  import opened Text
  import Files

  /** A roster row as `csv.DictReader` yields it: column name to value. */
  type Row = map<string, string>

  /** `user_map`: stripped `utm_id` to `(name, email)`. */
  type Roster = map<string, (string, string)>

  /** One tracked click, the dict built for each matched log line. */
  datatype Click = Click(timestamp: string, utmId: string, name: string, email: string)

  /** `row.get(column, '')`. */
  function Column(row: Row, column: string): string {
    if column in row then row[column] else ""
  }

  /** The key a row is stored under. */
  function RowId(row: Row): string {
    Strip(Column(row, "utm_id"))
  }

  /** The value a row is stored with. */
  function RowUser(row: Row): (string, string) {
    (Strip(Column(row, "name")), Strip(Column(row, "email")))
  }

  /** What a row offers the roster: its stripped identifier and user. */
  type Entry = (string, (string, string))

  /** The entries of the rows, in file order. */
  function Entries(rows: seq<Row>): seq<Entry> {
    seq(|rows|, i requires 0 <= i < |rows| => (RowId(rows[i]), RowUser(rows[i])))
  }

  /** One pass of the roster loop: an entry with a non-empty identifier is
      stored under it, replacing any earlier one. */
  function Insert(roster: Roster, e: Entry): Roster {
    if e.0 != "" then roster[e.0 := e.1] else roster
  }

  /** The roster built from a sequence of entries, first to last. */
  function Build(entries: seq<Entry>): Roster {
    if entries == [] then map[] else Insert(Build(entries[..|entries| - 1]), entries[|entries| - 1])
  }

  /** The roster `load_user_data` builds from the rows of the file. */
  function RosterOf(rows: seq<Row>): Roster {
    Build(Entries(rows))
  }

  /** `load_user_data`: `csv` is `None` when the file does not exist. */
  method LoadUserData(csv: Option<seq<Row>>) returns (userMap: Roster)
    ensures csv.None? ==> userMap == map[]
    ensures csv.Some? ==> userMap == RosterOf(csv.value)
  {
    userMap := map[];
    if csv.None? {
      return;
    }
    var rows := csv.value;
    ghost var entries := Entries(rows);
    var i := 0;
    while i < |rows|
      invariant 0 <= i <= |rows|
      invariant userMap == Build(entries[..i])
    {
      var row := rows[i];
      assert entries[..i + 1][..i] == entries[..i];
      assert entries[i] == (RowId(row), RowUser(row));
      var utmId := Strip(Column(row, "utm_id"));
      if utmId != "" {
        userMap := userMap[utmId := (Strip(Column(row, "name")), Strip(Column(row, "email")))];
      }
      i := i + 1;
    }
    assert entries[..|rows|] == entries;
  }

  /** An identifier is in a built roster iff some entry carries it and it
      is not empty. */
  lemma {:induction false} BuildKeys(entries: seq<Entry>, k: string)
    ensures k in Build(entries) <==> k != "" && exists i :: 0 <= i < |entries| && entries[i].0 == k
    decreases |entries|
  {
    if entries != [] {
      var n := |entries| - 1;
      var init := entries[..n];
      BuildKeys(init, k);
      if k in Build(entries) && k != entries[n].0 {
        var i :| 0 <= i < |init| && init[i].0 == k;
        assert entries[i] == init[i];
      }
      if k != "" && exists i :: 0 <= i < |entries| && entries[i].0 == k {
        var i :| 0 <= i < |entries| && entries[i].0 == k;
        if i < n {
          assert init[i] == entries[i];
        }
      }
    }
  }

  /** The value stored for an identifier is the one of the last entry
      carrying it. */
  lemma {:induction false} BuildLastWins(entries: seq<Entry>, k: string)
    requires k in Build(entries)
    ensures exists i :: 0 <= i < |entries| && entries[i].0 == k && Build(entries)[k] == entries[i].1
              && forall j :: i < j < |entries| ==> entries[j].0 != k
    decreases |entries|
  {
    var n := |entries| - 1;
    var init := entries[..n];
    BuildKeys(entries, k);
    assert Build(entries) == Insert(Build(init), entries[n]);
    if entries[n].0 == k {
      assert Build(entries)[k] == entries[n].1;
    } else {
      BuildLastWins(init, k);
      var i :| 0 <= i < |init| && init[i].0 == k && Build(init)[k] == init[i].1
                && forall j :: i < j < |init| ==> init[j].0 != k;
      assert entries[i] == init[i];
      forall j | i < j < |entries| ensures entries[j].0 != k {
        if j < n {
          assert entries[j] == init[j];
        }
      }
    }
  }

  /** A built roster holds at most one value per entry. */
  lemma {:induction false} BuildSize(entries: seq<Entry>)
    ensures |Build(entries)| <= |entries|
    decreases |entries|
  {
    if entries != [] {
      BuildSize(entries[..|entries| - 1]);
    }
  }

  /** An identifier is in the roster iff some row carries it, stripped and
      non-empty. */
  lemma RosterKeys(rows: seq<Row>, k: string)
    ensures k in RosterOf(rows) <==> k != "" && exists i :: 0 <= i < |rows| && RowId(rows[i]) == k
  {
    var entries := Entries(rows);
    BuildKeys(entries, k);
    assert forall i :: 0 <= i < |rows| ==> entries[i].0 == RowId(rows[i]);
  }

  /** The user stored for an identifier comes from the last row carrying
      it. */
  lemma RosterLastWins(rows: seq<Row>, k: string)
    requires k in RosterOf(rows)
    ensures exists i :: 0 <= i < |rows| && RowId(rows[i]) == k && RosterOf(rows)[k] == RowUser(rows[i])
              && forall j :: i < j < |rows| ==> RowId(rows[j]) != k
  {
    var entries := Entries(rows);
    BuildLastWins(entries, k);
    var i :| 0 <= i < |entries| && entries[i].0 == k && Build(entries)[k] == entries[i].1
              && forall j :: i < j < |entries| ==> entries[j].0 != k;
    assert entries[i] == (RowId(rows[i]), RowUser(rows[i]));
    forall j | i < j < |rows| ensures RowId(rows[j]) != k {
      assert entries[j].0 == RowId(rows[j]);
    }
  }

  /** The roster holds at most one user per row. */
  lemma RosterSize(rows: seq<Row>)
    ensures |RosterOf(rows)| <= |rows|
  {
    BuildSize(Entries(rows));
  }

  /** The stripping of the log loop: blank lines and lines without `:` give
      nothing; any other line is split at its first `:` and both parts are
      stripped, giving the timestamp and the identifier. */
  function ParseLine(line: string): Option<(string, string)> {
    var s := Strip(line);
    if s == [] || ':' !in s then None
    else
      var parts := SplitFirst(s, ':');
      Some((Strip(parts.0), Strip(parts.1)))
  }

  /** A line is skipped exactly when it is blank or holds no `:`; otherwise
      the timestamp holds no `:`, and timestamp and identifier are stripped. */
  lemma ParseLineFields(line: string)
    ensures ParseLine(line).None? <==> AllSpace(line) || ':' !in line
    ensures ParseLine(line).Some? ==> var (timestamp, utmId) := ParseLine(line).value;
              ':' !in timestamp && Trimmed(timestamp) && Trimmed(utmId)
  {
    var s := Strip(line);
    StripEmptyIff(line);
    StripKeeps(line, ':');
    if s != [] && ':' in s {
      var parts := SplitFirst(s, ':');
      SplitFirstParts(s, ':');
      StripSubset(parts.0, ':');
      StripTrimmed(parts.0);
      StripTrimmed(parts.1);
    }
  }

  /** The timestamp is the text before the first `:` of the stripped line
      and the identifier the text after it, both stripped; the identifier
      may itself hold further colons. */
  lemma ParseLineSplit(line: string, before: string, after: string)
    requires Strip(line) == before + ":" + after && ':' !in before
    ensures ParseLine(line) == Some((Strip(before), Strip(after)))
  {
    assert ':' in Strip(line) by {
      assert Strip(line)[|before|] == ':';
    }
    SplitFirstUnique(Strip(line), ':', before, after);
  }

  /** What a parsed line contributes to `tracked_clicks`: a record when its
      identifier is in the roster, with the roster's name and email. */
  function Pick(roster: Roster, parsed: Option<(string, string)>): seq<Click> {
    match parsed
    case None => []
    case Some((timestamp, utmId)) =>
      if utmId in roster then [Click(timestamp, utmId, roster[utmId].0, roster[utmId].1)] else []
  }

  /** What one log line contributes to `tracked_clicks`. */
  function TrackLine(roster: Roster, line: string): seq<Click> {
    Pick(roster, ParseLine(line))
  }

  /** A line is tracked iff it parses and its identifier is in the roster;
      the record then carries the parsed timestamp and identifier and the
      roster's name and email for it. */
  lemma TrackLineIff(roster: Roster, line: string)
    ensures |TrackLine(roster, line)| <= 1
    ensures TrackLine(roster, line) != [] <==> ParseLine(line).Some? && ParseLine(line).value.1 in roster
    ensures TrackLine(roster, line) != [] ==> var c := TrackLine(roster, line)[0];
              && ParseLine(line) == Some((c.timestamp, c.utmId))
              && c.utmId in roster && roster[c.utmId] == (c.name, c.email)
  {
  }

  /** The records of a sequence of parsed lines, in order. */
  function Join(roster: Roster, parsed: seq<Option<(string, string)>>): seq<Click> {
    if parsed == [] then [] else Pick(roster, parsed[0]) + Join(roster, parsed[1..])
  }

  /** The log, line by line, as the loop parses it. */
  function ParseAll(lines: seq<string>): seq<Option<(string, string)>> {
    seq(|lines|, i requires 0 <= i < |lines| => ParseLine(lines[i]))
  }

  /** Parsing a slice of the log gives the same slice of the parsed log. */
  lemma ParseAllSlice(lines: seq<string>, lo: nat, hi: nat)
    requires lo <= hi <= |lines|
    ensures ParseAll(lines)[lo..hi] == ParseAll(lines[lo..hi])
  {
    assert forall j :: 0 <= j < hi - lo ==> lines[lo..hi][j] == lines[lo + j];
  }

  /** `tracked_clicks` after the whole log. */
  function Matches(roster: Roster, lines: seq<string>): seq<Click> {
    Join(roster, ParseAll(lines))
  }

  /** Joining distributes over concatenation. */
  lemma {:induction false} JoinAppend(roster: Roster, a: seq<Option<(string, string)>>, b: seq<Option<(string, string)>>)
    ensures Join(roster, a + b) == Join(roster, a) + Join(roster, b)
    decreases |a|
  {
    if a != [] {
      assert (a + b)[0] == a[0];
      assert (a + b)[1..] == a[1..] + b;
      JoinAppend(roster, a[1..], b);
    } else {
      assert a + b == b;
    }
  }

  /** Joining one more parsed line appends its record, if any. */
  lemma JoinStep(roster: Roster, parsed: seq<Option<(string, string)>>, i: nat)
    requires i < |parsed|
    ensures Join(roster, parsed[..i + 1]) == Join(roster, parsed[..i]) + Pick(roster, parsed[i])
  {
    JoinAppend(roster, parsed[..i], [parsed[i]]);
    assert Join(roster, [parsed[i]]) == Pick(roster, parsed[i]) + Join(roster, []);
    assert parsed[..i + 1] == parsed[..i] + [parsed[i]];
  }

  /** Parsed line `i` contributes its record after those of the lines
      before it and before those of the lines after it. */
  lemma JoinInOrder(roster: Roster, parsed: seq<Option<(string, string)>>, i: nat)
    requires i < |parsed|
    ensures Join(roster, parsed) ==
              Join(roster, parsed[..i]) + Pick(roster, parsed[i]) + Join(roster, parsed[i + 1..])
  {
    assert parsed == parsed[..i + 1] + parsed[i + 1..];
    JoinAppend(roster, parsed[..i + 1], parsed[i + 1..]);
    JoinStep(roster, parsed, i);
  }

  /** There are never more records than parsed lines. */
  lemma {:induction false} JoinBound(roster: Roster, parsed: seq<Option<(string, string)>>)
    ensures |Join(roster, parsed)| <= |parsed|
    decreases |parsed|
  {
    if parsed != [] {
      JoinBound(roster, parsed[1..]);
    }
  }

  /** Every record comes from a parsed line whose identifier is in the
      roster, and carries that roster entry's name and email. */
  lemma {:induction false} JoinSound(roster: Roster, parsed: seq<Option<(string, string)>>, k: nat)
    requires k < |Join(roster, parsed)|
    ensures var c := Join(roster, parsed)[k];
            && c.utmId in roster && roster[c.utmId] == (c.name, c.email)
            && exists i :: 0 <= i < |parsed| && parsed[i] == Some((c.timestamp, c.utmId))
    decreases |parsed|
  {
    var head := Pick(roster, parsed[0]);
    var c := Join(roster, parsed)[k];
    if k < |head| {
      assert c == head[0];
      assert parsed[0] == Some((c.timestamp, c.utmId));
    } else {
      assert c == Join(roster, parsed[1..])[k - |head|];
      JoinSound(roster, parsed[1..], k - |head|);
      var i :| 0 <= i < |parsed[1..]| && parsed[1..][i] == Some((c.timestamp, c.utmId));
      assert parsed[i + 1] == parsed[1..][i];
    }
  }

  /** Joining against an empty roster yields nothing. */
  lemma {:induction false} JoinEmptyRoster(parsed: seq<Option<(string, string)>>)
    ensures Join(map[], parsed) == []
    decreases |parsed|
  {
    if parsed != [] {
      JoinEmptyRoster(parsed[1..]);
    }
  }

  /** Records keep log order: line `i` contributes its record, if any,
      after those of the lines before it and before those after it. */
  lemma MatchesInOrder(roster: Roster, lines: seq<string>, i: nat)
    requires i < |lines|
    ensures Matches(roster, lines) ==
              Matches(roster, lines[..i]) + TrackLine(roster, lines[i]) + Matches(roster, lines[i + 1..])
  {
    var parsed := ParseAll(lines);
    JoinInOrder(roster, parsed, i);
    ParseAllSlice(lines, 0, i);
    ParseAllSlice(lines, i + 1, |lines|);
    assert parsed[..i] == parsed[0..i] && lines[..i] == lines[0..i];
    assert parsed[i + 1..] == parsed[i + 1..|lines|] && lines[i + 1..] == lines[i + 1..|lines|];
    assert Join(roster, parsed[..i]) == Matches(roster, lines[..i]);
    assert Join(roster, parsed[i + 1..]) == Matches(roster, lines[i + 1..]);
    assert Pick(roster, parsed[i]) == TrackLine(roster, lines[i]);
  }

  /** Matching one more log line appends its record, if any. */
  lemma MatchesStep(roster: Roster, lines: seq<string>, i: nat)
    requires i < |lines|
    ensures Matches(roster, lines[..i + 1]) == Matches(roster, lines[..i]) + TrackLine(roster, lines[i])
  {
    var prefix := lines[..i + 1];
    MatchesInOrder(roster, prefix, i);
    assert prefix[..i] == lines[..i] && prefix[i] == lines[i];
    assert prefix[i + 1..] == [];
    assert Matches(roster, []) == [];
  }

  /** Every log line that parses to an identifier in the roster is
      reported, with the roster's name and email. */
  lemma MatchesComplete(roster: Roster, lines: seq<string>, i: nat)
    requires i < |lines| && ParseLine(lines[i]).Some? && ParseLine(lines[i]).value.1 in roster
    ensures var (timestamp, utmId) := ParseLine(lines[i]).value;
            Click(timestamp, utmId, roster[utmId].0, roster[utmId].1) in Matches(roster, lines)
  {
    MatchesInOrder(roster, lines, i);
    var m := Matches(roster, lines[..i]);
    assert Matches(roster, lines)[|m|] == TrackLine(roster, lines[i])[0];
  }

  /** There are never more records than log lines. */
  lemma MatchesBound(roster: Roster, lines: seq<string>)
    ensures |Matches(roster, lines)| <= |lines|
  {
    JoinBound(roster, ParseAll(lines));
  }

  /** Every record comes from a log line whose identifier is in the roster,
      and carries that roster entry's name and email. */
  lemma MatchesSound(roster: Roster, lines: seq<string>, k: nat)
    requires k < |Matches(roster, lines)|
    ensures var c := Matches(roster, lines)[k];
            && c.utmId in roster && roster[c.utmId] == (c.name, c.email)
            && exists i :: 0 <= i < |lines| && ParseLine(lines[i]) == Some((c.timestamp, c.utmId))
  {
    var parsed := ParseAll(lines);
    JoinSound(roster, parsed, k);
    var c := Matches(roster, lines)[k];
    var i :| 0 <= i < |parsed| && parsed[i] == Some((c.timestamp, c.utmId));
    assert ParseLine(lines[i]) == parsed[i];
  }

  /** With an empty roster nothing is ever tracked. */
  lemma EmptyRosterTracksNothing(lines: seq<string>)
    ensures Matches(map[], lines) == []
  {
    JoinEmptyRoster(ParseAll(lines));
  }

  /** The first loop of `track_user_clicks`. */
  method CollectClicks(userMap: Roster, lines: seq<string>) returns (trackedClicks: seq<Click>)
    ensures trackedClicks == Matches(userMap, lines)
  {
    trackedClicks := [];
    var i := 0;
    while i < |lines|
      invariant 0 <= i <= |lines|
      invariant trackedClicks == Matches(userMap, lines[..i])
    {
      ghost var before := trackedClicks;
      var parsed := ParseLine(lines[i]);
      if parsed.Some? {
        var (timestamp, utmId) := parsed.value;
        if utmId in userMap {
          var (name, email) := userMap[utmId];
          trackedClicks := trackedClicks + [Click(timestamp, utmId, name, email)];
        }
      }
      assert trackedClicks == before + TrackLine(userMap, lines[i]);
      MatchesStep(userMap, lines, i);
      i := i + 1;
    }
    assert lines[..|lines|] == lines;
  }

  /** One report line. */
  function FormatLine(c: Click): string {
    c.timestamp + ": " + c.utmId + " - " + c.name + " (" + c.email + ")\n"
  }

  /** The text appended for a sequence of records: one line each, in order. */
  function ReportText(clicks: seq<Click>): string {
    if clicks == [] then "" else FormatLine(clicks[0]) + ReportText(clicks[1..])
  }

  lemma {:induction false} ReportTextAppend(a: seq<Click>, b: seq<Click>)
    ensures ReportText(a + b) == ReportText(a) + ReportText(b)
    decreases |a|
  {
    if a != [] {
      assert (a + b)[0] == a[0];
      assert (a + b)[1..] == a[1..] + b;
      ReportTextAppend(a[1..], b);
    } else {
      assert a + b == b;
    }
  }

  /** Reporting one more record appends its line. */
  lemma ReportTextStep(prefix: string, clicks: seq<Click>, i: nat)
    requires i < |clicks|
    ensures prefix + ReportText(clicks[..i + 1]) == prefix + ReportText(clicks[..i]) + FormatLine(clicks[i])
  {
    ReportTextAppend(clicks[..i], [clicks[i]]);
    assert clicks[..i + 1] == clicks[..i] + [clicks[i]];
    assert ReportText([clicks[i]]) == FormatLine(clicks[i]) + ReportText([]);
  }

  /** The second loop of `track_user_clicks`: one report line per record,
      appended in order. */
  method AppendReport(trackedClicks: seq<Click>, output: Files.AppendFile)
    modifies output
    ensures output.content == old(output.content) + ReportText(trackedClicks)
  {
    var i := 0;
    while i < |trackedClicks|
      invariant 0 <= i <= |trackedClicks|
      invariant output.content == old(output.content) + ReportText(trackedClicks[..i])
    {
      var click := trackedClicks[i];
      output.Write(FormatLine(click));
      ReportTextStep(old(output.content), trackedClicks, i);
      i := i + 1;
    }
    assert trackedClicks[..|trackedClicks|] == trackedClicks;
  }

  /** `track_user_clicks`: `clicksLog` is `None` when the log does not
      exist, otherwise its lines; `output` is the report file. */
  method TrackUserClicks(userMap: Roster, clicksLog: Option<seq<string>>, output: Files.AppendFile)
    modifies output
    ensures clicksLog.None? ==> output.content == old(output.content)
    ensures clicksLog.Some? ==> output.content == old(output.content) + ReportText(Matches(userMap, clicksLog.value))
  {
    if clicksLog.None? {
      return;
    }
    var trackedClicks := CollectClicks(userMap, clicksLog.value);
    AppendReport(trackedClicks, output);
  }

  /** What one run of the reporter appends to the report: nothing when the
      roster is empty or the log is missing. */
  function RunReport(csv: Option<seq<Row>>, clicksLog: Option<seq<string>>): string {
    var userMap := if csv.None? then map[] else RosterOf(csv.value);
    if userMap == map[] || clicksLog.None? then "" else ReportText(Matches(userMap, clicksLog.value))
  }

  /** The `__main__` block: load the roster, then track clicks unless the
      roster is empty. */
  method RunReporter(csv: Option<seq<Row>>, clicksLog: Option<seq<string>>, output: Files.AppendFile)
    modifies output
    ensures output.content == old(output.content) + RunReport(csv, clicksLog)
  {
    var userMap := LoadUserData(csv);
    if userMap != map[] {
      TrackUserClicks(userMap, clicksLog, output);
    }
  }

  /** Two runs over the same inputs append the same lines twice: the
      report is not idempotent. */
  method RunTwice(csv: Option<seq<Row>>, clicksLog: Option<seq<string>>, output: Files.AppendFile)
    modifies output
    ensures output.content == old(output.content) + RunReport(csv, clicksLog) + RunReport(csv, clicksLog)
  {
    RunReporter(csv, clicksLog, output);
    RunReporter(csv, clicksLog, output);
  }

  /** The empty-roster gate changes nothing in the report: without it the
      join over an empty roster appends nothing either. */
  lemma EmptyRosterGateInvisible(csv: Option<seq<Row>>, clicksLog: Option<seq<string>>)
    ensures var userMap := if csv.None? then map[] else RosterOf(csv.value);
            RunReport(csv, clicksLog) == if clicksLog.None? then "" else ReportText(Matches(userMap, clicksLog.value))
  {
    if clicksLog.Some? {
      EmptyRosterTracksNothing(clicksLog.value);
    }
  }

  /** What `strip` leaves of a line `timestamp: identifier`. */
  lemma ColonFreeLineStrip(timestamp: string, utmId: string)
    requires timestamp != [] && Trimmed(timestamp) && Trimmed(utmId)
    ensures utmId == [] ==> Strip(timestamp + ": " + utmId) == timestamp + ":" + []
    ensures utmId != [] ==> Strip(timestamp + ": " + utmId) == timestamp + ":" + (" " + utmId)
  {
    var line := timestamp + ": " + utmId;
    if utmId == [] {
      var s := timestamp + ":";
      assert s[0] == timestamp[0] && s[|s| - 1] == ':';
      assert line == [] + s + " ";
      StripExact([], s, " ");
    } else {
      assert line[0] == timestamp[0] && line[|line| - 1] == utmId[|utmId| - 1];
      assert line == [] + line + [];
      StripExact([], line, []);
    }
  }

  /** `strip` of a stripped text, with possibly one leading space. */
  lemma StripStripped(pad: string, s: string)
    requires pad == [] || pad == " "
    requires Trimmed(s)
    ensures Strip(pad + s) == s
  {
    assert pad + s == pad + s + [];
    StripExact(pad, s, []);
  }

  /** How `strip` and the first-colon split see a line `timestamp:
      identifier` whose timestamp has no `:`. */
  lemma ColonFreeLineParses(timestamp: string, utmId: string)
    requires timestamp != [] && ':' !in timestamp && Trimmed(timestamp) && Trimmed(utmId)
    ensures ParseLine(timestamp + ": " + utmId) == Some((timestamp, utmId))
  {
    var line := timestamp + ": " + utmId;
    var pad := if utmId == [] then [] else " ";
    var after := pad + utmId;
    ColonFreeLineStrip(timestamp, utmId);
    assert Strip(line) == timestamp + ":" + after;
    ParseLineSplit(line, timestamp, after);
    StripStripped([], timestamp);
    StripStripped(pad, utmId);
    assert [] + timestamp == timestamp;
  }

  /** A line `timestamp: identifier`, as the redirect service would write
      it with a timestamp free of `:`, is matched against the roster on
      exactly that identifier. */
  lemma ColonFreeLineTracked(roster: Roster, timestamp: string, utmId: string)
    requires timestamp != [] && ':' !in timestamp && Trimmed(timestamp) && Trimmed(utmId)
    requires utmId in roster
    ensures TrackLine(roster, timestamp + ": " + utmId) ==
              [Click(timestamp, utmId, roster[utmId].0, roster[utmId].1)]
  {
    ColonFreeLineParses(timestamp, utmId);
  }

  /** Trailing whitespace, the newline the log lines end with included,
      does not change how a line parses. */
  lemma ParseLineIgnoresTrailingSpace(line: string, t: string)
    requires AllSpace(t)
    ensures ParseLine(line + t) == ParseLine(line)
  {
    StripAppendSpace(line, t);
  }

  /** A line that strips to `before:after`, with `before` free of colons
      and both parts already stripped, parses to exactly those parts. */
  lemma ParseStrippedLine(line: string, before: string, after: string)
    requires Strip(line) == before + ":" + after && ':' !in before
    requires Trimmed(before) && Trimmed(after)
    ensures ParseLine(line) == Some((before, after))
  {
    ParseLineSplit(line, before, after);
    StripStripped([], before);
    StripStripped([], after);
    assert [] + before == before && [] + after == after;
  }

  /** A text `first + ":" + rest + ": " + last` with stripped, non-empty
      outer parts is already stripped. */
  lemma ColonJoinTrimmed(first: string, rest: string, last: string)
    requires first != [] && Trimmed(first) && last != [] && Trimmed(last)
    ensures Strip(first + ":" + rest + ": " + last) == first + ":" + rest + ": " + last
  {
    var s := first + ":" + rest + ": " + last;
    assert s[0] == first[0] && s[|s| - 1] == last[|last| - 1];
    StripStripped([], s);
    assert [] + s == s;
  }

  /** A line `timestamp: identifier` whose timestamp itself holds a `:`
      (an ISO time of day, say) is cut at that `:`: the parsed timestamp is
      the text before it, and the parsed identifier is the rest of the
      timestamp, `: ` and the identifier. */
  lemma ColonTimestampLineParses(hour: string, rest: string, utmId: string)
    requires hour != [] && ':' !in hour && Trimmed(hour)
    requires rest != [] && Trimmed(rest) && utmId != [] && Trimmed(utmId)
    ensures ParseLine(hour + ":" + rest + ": " + utmId) == Some((hour, rest + ": " + utmId))
  {
    var tail := rest + ": " + utmId;
    var line := hour + ":" + rest + ": " + utmId;
    ColonJoinTrimmed(hour, rest, utmId);
    assert line == hour + ":" + tail;
    assert tail[0] == rest[0] && tail[|tail| - 1] == utmId[|utmId| - 1];
    ParseStrippedLine(line, hour, tail);
  }

  /** The parts of the click line `2024-01-01T00:00:00: abc123`: the ISO
      timestamp up to its hour, the rest of its time of day, and the
      identifier. */
  const IsoHour: string := "2024-01-01T00"
  const IsoRest: string := "00:00"
  const AbcId: string := "abc123"

  /** The click line `2024-01-01T00:00:00: abc123`. */
  const IsoLine: string := IsoHour + ":" + IsoRest + ": " + AbcId

  /** `IsoLine` parses to the timestamp `2024-01-01T00` and the identifier
      `00:00: abc123`. */
  lemma FullIsoLineParses()
    ensures ParseLine(IsoLine) == Some((IsoHour, IsoRest + ": " + AbcId))
  {
    ColonTimestampLineParses(IsoHour, IsoRest, AbcId);
  }

  /** The same line as the redirect service writes it, newline included,
      parses the same way. */
  lemma ServerLineSplitsInsideTimestamp()
    ensures ParseLine(IsoLine + "\n") == Some((IsoHour, IsoRest + ": " + AbcId))
  {
    FullIsoLineParses();
    ParseLineIgnoresTrailingSpace(IsoLine, "\n");
  }

  /** A one-line log whose line is skipped or names no roster entry
      appends nothing. */
  lemma UntrackedLineReportsNothing(rows: seq<Row>, line: string)
    requires ParseLine(line).None? || ParseLine(line).value.1 !in RosterOf(rows)
    ensures RunReport(Some(rows), Some([line])) == ""
  {
    MatchesInOrder(RosterOf(rows), [line], 0);
    assert [line][..0] == [] && [line][1..] == [];
  }

  /** When no row's identifier holds a `:`, a line whose parsed identifier
      holds one appends nothing. */
  lemma ColonIdentifierNotTracked(rows: seq<Row>, line: string)
    requires forall i :: 0 <= i < |rows| ==> ':' !in RowId(rows[i])
    requires ParseLine(line).Some? && ':' in ParseLine(line).value.1
    ensures RunReport(Some(rows), Some([line])) == ""
  {
    RosterKeys(rows, ParseLine(line).value.1);
    UntrackedLineReportsNothing(rows, line);
  }

  /** The roster row `Alice, a@x.com, abc123`. */
  const AliceRow: Row := map["name" := "Alice", "email" := "a@x.com", "utm_id" := AbcId]

  /** `AliceRow` is stored under `abc123`. */
  lemma AliceRowId()
    ensures RowId(AliceRow) == AbcId
  {
    StripStripped([], AbcId);
    assert [] + AbcId == AbcId;
  }

  /** The roster `AliceRow` and the log `IsoLine` produce no report line:
      the first-colon split makes the identifier `00:00: abc123`, which no
      row carries. */
  lemma FullIsoTimestampNotTracked()
    ensures RunReport(Some([AliceRow]), Some([IsoLine])) == ""
  {
    AliceRowId();
    FullIsoLineParses();
    assert (IsoRest + ": " + AbcId)[2] == ':';
    ColonIdentifierNotTracked([AliceRow], IsoLine);
  }
}
