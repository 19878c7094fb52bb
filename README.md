# UTM redirect service and click attribution reporter, in Dafny

This project models the two small string-processing cores of a campaign
tracking tool.

The redirect service (`redirect-server.py`, `param_handler`) handles one
request:
- It keeps the query parameters whose key begins with `utm_` or `utm-`,
  comparing case-sensitively.
- It stores each kept parameter under its key with every `-` replaced by
  `_`, in an insertion-ordered dict.
- It appends the click line `timestamp: id` to the click log when the
  `utm_id` tag is present.
- It answers with a 302 redirect to the form URL. When any tags were kept,
  the URL gets `?` followed by the URL-encoded tags.

The attribution reporter (`tracker.py`) runs in three steps:
- It loads a roster from CSV rows: the stripped `utm_id` maps to the
  stripped name and email. Rows with an empty identifier are skipped, and a
  later row wins over an earlier one.
- It parses the click log line by line. It strips each line, skips blank
  lines and lines without `:`, splits at the first `:`, and strips both
  parts.
- It joins the parsed identifiers against the roster, in log order, and
  appends one report line per match to the report file. The `__main__`
  block skips tracking when the roster is empty.

The modules are:
- `Wrappers`: `Option`.
- `Text`: Python's `str.isspace`, `strip`, `startswith`, one-character
  `replace` and `split(':', 1)`, with their laws.
- `OrderedMap`: the insertion-ordered `dict` over keys and values.
- `Files`: an append-mode text file, as a class whose `content` only
  grows.
- `RedirectServer`: `param_handler`.
- `Tracker`: `load_user_data`, `track_user_clicks` and the `__main__` gate.

The code's loops are methods with loop invariants: the tag loop, the roster
loop, the log loop and the report loop. Each method is proved equal to a
specification function: `TagsOf`, `RosterOf`, `Matches` and `ReportText`.
The properties the programs promise are proved as lemmas about those
functions.

In two places the code does something other than what a reader would
expect. The model follows the code:
- **Outbound keys.** The comment at `redirect-server.py:53` says the
  original keys are passed through to the form URL. The comprehension at
  `redirect-server.py:54` returns `k` in both branches of its conditional,
  and its input holds the already normalised keys. So the redirect carries
  the normalised keys: `OutboundPairs`, `OutboundKeysNormalised`,
  `HyphenKeyPassedNormalised`.
- **A click with a full ISO timestamp is not attributed.** Take the roster
  `Alice, a@x.com, abc123` and the log line `2024-01-01T00:00:00: abc123`.
  One would expect the report line `2024-01-01T00:00:00: abc123 - Alice
  (a@x.com)`, but the code reports nothing. It splits the line at its first
  `:`, so the identifier becomes `00:00: abc123`, and no roster row holds
  that identifier. `FullIsoTimestampNotTracked` proves this for exactly that
  roster and line.
  - The redirect service writes lines with `datetime.now().isoformat()`, so
    every line it writes has this shape: `ServerLineSplitsInsideTimestamp`
    and `ColonTimestampLineParses`.
  - A line whose timestamp holds no `:` is tracked on its identifier:
    `ColonFreeLineTracked`.

## Model

| member | source | states |
|---|---|---|
| Text.StripTrimmed | tracker.py:48 | after `strip`, neither the first nor the last character is whitespace |
| Text.StripSubset | tracker.py:51-52 | `strip` adds no character that was not in its input |
| Text.StripKeeps | tracker.py:48-49 | a non-whitespace character occurs in the stripped line iff it occurs in the line, so `':' not in line` may be tested before or after stripping |
| Text.StripAllSpace | tracker.py:48-49 | a string made only of whitespace strips to the empty string |
| Text.StripExact | tracker.py:29 | whitespace, then a text with non-whitespace ends, then whitespace, strips to exactly that text |
| Text.StripExactNonEmpty | tracker.py:29 | the same, for a non-empty middle text |
| Text.StripParts | tracker.py:48 | every string is its stripped form with whitespace before and after it |
| Text.StripAppendSpace | tracker.py:48 | trailing whitespace, e.g. a line's newline, does not change the stripped result |
| Text.StripIdempotent | tracker.py:48-52 | stripping twice is stripping once |
| Text.StripEmptyIff | tracker.py:30 | `strip` gives `''` exactly when the input is all whitespace, so a row is skipped exactly for a blank identifier |
| Text.Replace | redirect-server.py:40 | `replace('-', '_')` keeps the length and changes exactly the `-` characters to `_` |
| Text.ReplaceRemoves | redirect-server.py:40 | after replacing, no `-` is left, and a `-`-free prefix is kept |
| Text.SplitFirstParts | tracker.py:51 | `split(':', 1)` returns two parts which, joined with `:`, give the line back, and the first part holds no `:` |
| Text.SplitFirstUnique | tracker.py:51 | any decomposition `a + ':' + b` with no `:` in `a` is the one `split(':', 1)` returns |
| OrderedMap.OMap.Put | redirect-server.py:41 | `d[k] = v` stores `v` under `k`; a new key is appended to the order, and an existing key keeps its position; every key is listed once |
| OrderedMap.OMap.Items | redirect-server.py:54 | `d.items()` lists each key in insertion order with its stored value |
| OrderedMap.Empty | redirect-server.py:37 | `{}` has no keys |
| Files.AppendFile.Write | tracker.py:67-70 | writing to a file opened with mode `'a'` extends its content and alters nothing already there |
| RedirectServer.NormalizedKeyShape | redirect-server.py:39-40 | the normalised form of a tag key has no `-` and begins with `utm_` |
| RedirectServer.NormalizeToUtmId | redirect-server.py:40 | exactly the keys `utm_id` and `utm-id` normalise to `utm_id` |
| RedirectServer.TagsOf | redirect-server.py:37-41 | the tag dict built by the loop lists every stored name exactly once |
| RedirectServer.ExtractTags | redirect-server.py:37-41 | the filter/normalise loop builds exactly `TagsOf(query)` |
| RedirectServer.TagKeys | redirect-server.py:38-41 | a name is stored iff some query key starts with `utm_` or `utm-` and normalises to it, so every other key is absent |
| RedirectServer.TagsNormalised | redirect-server.py:40 | no stored name contains `-`, and every stored name begins with `utm_` |
| RedirectServer.TagsLastWins | redirect-server.py:41 | a stored value is the value of the last query key normalising to that name |
| RedirectServer.TagsOrderStable | redirect-server.py:37-41 | names never move: the order after any prefix of the query is a prefix of the final order |
| RedirectServer.TagsFirstInsertion | redirect-server.py:41 | a name sits at the position of the first key producing it, after the names of all earlier keys |
| RedirectServer.CollidingKeysMerge | redirect-server.py:40-41 | two keys normalising alike give one entry, holding the later value |
| RedirectServer.UtmIdSpellingsMerge | redirect-server.py:40-41 | `utm-id=a&utm_id=b` gives the single tag `utm_id` with value `b` |
| RedirectServer.IdKeyContributes | redirect-server.py:38-40 | a key is stored as `utm_id` iff it is `utm_id` or `utm-id` |
| RedirectServer.ClickLineFromQuery | redirect-server.py:48-51 | a click line is written iff some query key is `utm_id` or `utm-id`; it is `timestamp + ": " + value + "\n"`, with the value of the last such key |
| RedirectServer.OutboundPairs | redirect-server.py:54 | the comprehension returns the items unchanged: same keys, same values, same order |
| RedirectServer.OutboundKeysNormalised | redirect-server.py:54 | every key re-attached to the redirect is a normalised name and contains no `-` |
| RedirectServer.HyphenKeyPassedNormalised | redirect-server.py:54 | a lone tag is passed on under its normalised name, which differs from a hyphenated original spelling |
| RedirectServer.RedirectUrl | redirect-server.py:55-59 | the URL is the form URL exactly iff there are no pairs; otherwise it is the form URL, `?` and the encoded pairs |
| RedirectServer.ParamHandler | redirect-server.py:33-61 | the response is a 302 to the URL built from the items of `TagsOf(query)`; the click log gains the click line if there is one, and nothing else |
| Tracker.LoadUserData | tracker.py:15-31 | a missing CSV gives the empty roster; otherwise the loop builds exactly `RosterOf(rows)` |
| Tracker.BuildKeys | tracker.py:28-31 | an identifier is in the roster iff some entry carries it and it is not empty |
| Tracker.BuildLastWins | tracker.py:28-31 | the stored value is that of the last entry carrying the identifier |
| Tracker.BuildSize | tracker.py:28-31 | the roster has at most one entry per row |
| Tracker.RosterKeys | tracker.py:29-31 | an identifier is a roster key iff some row's stripped `utm_id` equals it and it is non-empty; absent columns read as `''` |
| Tracker.RosterLastWins | tracker.py:28-31 | the user stored for an identifier is the stripped name and email of the last row carrying it |
| Tracker.RosterSize | tracker.py:28-31 | the roster size is at most the number of rows |
| Tracker.ParseLineFields | tracker.py:48-52 | a line is skipped iff it is all whitespace or holds no `:`; otherwise the timestamp holds no `:`, and both parts are stripped |
| Tracker.ParseLineSplit | tracker.py:51-52 | the timestamp is the stripped text before the first `:`, and the identifier is the stripped text after it, colons included |
| Tracker.ParseStrippedLine | tracker.py:48-52 | a line stripping to `before:after` with colon-free, stripped `before` and stripped `after` parses to exactly those parts |
| Tracker.ParseLineIgnoresTrailingSpace | tracker.py:48 | a trailing newline or other whitespace does not change how a line parses |
| Tracker.TrackLineIff | tracker.py:54-61 | a line yields at most one record; it yields one iff it parses and its identifier is a roster key; the record carries the parsed timestamp and identifier and the roster's name and email |
| Tracker.JoinAppend | tracker.py:45-61 | the records of two concatenated logs are the records of each, in order |
| Tracker.JoinStep | tracker.py:45-61 | one more line appends its record, if any, after the existing ones |
| Tracker.JoinInOrder | tracker.py:45-61 | parsed line `i`'s record follows those of the earlier parsed lines and precedes those of the later ones |
| Tracker.ParseAllSlice | tracker.py:47-52 | parsing a slice of the log gives the same slice of the parsed log |
| Tracker.JoinBound | tracker.py:45-61 | there are never more records than lines |
| Tracker.JoinSound | tracker.py:54-61 | every record comes from a parsed line whose identifier is a roster key, and carries that entry's name and email |
| Tracker.JoinEmptyRoster | tracker.py:54 | nothing matches an empty roster |
| Tracker.MatchesInOrder | tracker.py:45-61 | records keep log order: line `i`'s record follows those of earlier lines and precedes those of later lines |
| Tracker.MatchesComplete | tracker.py:54-61 | every line that parses to a roster identifier is reported, with the roster's name and email |
| Tracker.MatchesBound | tracker.py:45-61 | the number of records is at most the number of log lines |
| Tracker.MatchesSound | tracker.py:54-61 | every record comes from some log line whose parsed identifier is a roster key, and carries that entry's name and email |
| Tracker.EmptyRosterTracksNothing | tracker.py:54 | with an empty roster no line is tracked |
| Tracker.MatchesStep | tracker.py:45-61 | one more log line appends its record, if any, after the records of the earlier lines |
| Tracker.CollectClicks | tracker.py:45-61 | the log loop collects exactly `Matches(userMap, lines)` |
| Tracker.ReportTextAppend | tracker.py:67-70 | the report text of two record lists is the text of each, in order |
| Tracker.ReportTextStep | tracker.py:68-70 | one more record appends its formatted line `ts: id - name (email)\n` |
| Tracker.AppendReport | tracker.py:67-70 | the write loop appends exactly one formatted line per record, in order, after the prior content |
| Tracker.TrackUserClicks | tracker.py:36-70 | a missing log leaves the report untouched; otherwise the report gains the lines of `Matches(userMap, lines)` after its prior content |
| Tracker.RunReporter | tracker.py:74-80 | one run appends `RunReport(csv, log)`, which is empty when the roster is empty or the log is missing |
| Tracker.RunTwice | tracker.py:67-80 | two runs over the same inputs append the same lines twice, so reporting is not idempotent |
| Tracker.EmptyRosterGateInvisible | tracker.py:77-80 | the empty-roster gate changes no output: the join over an empty roster appends nothing either |
| Tracker.ColonFreeLineStrip | tracker.py:48 | `strip` of `timestamp: id` with stripped, non-empty parts removes at most the space a blank id leaves at the end |
| Tracker.StripStripped | tracker.py:52 | an already stripped text, with or without one leading space, strips to itself |
| Tracker.ColonFreeLineParses | tracker.py:48-52 | a line `timestamp: id` whose timestamp has no `:` parses to exactly that timestamp and id |
| Tracker.ColonFreeLineTracked | tracker.py:48-61 | such a line with a roster id yields the record with the roster's name and email |
| Tracker.ColonJoinTrimmed | tracker.py:48 | `hour:rest: id` with stripped, non-empty ends is already stripped |
| Tracker.ColonTimestampLineParses | tracker.py:51-52 | a line whose timestamp holds a `:` parses to the text before that `:` as timestamp, with the rest of the time prefixed to the identifier |
| Tracker.FullIsoLineParses | tracker.py:51-52 | `2024-01-01T00:00:00: abc123` parses to `2024-01-01T00` and `00:00: abc123` |
| Tracker.ServerLineSplitsInsideTimestamp | redirect-server.py:51 | the line the service writes, newline included, parses the same way |
| Tracker.UntrackedLineReportsNothing | tracker.py:54-70 | a one-line log whose line is skipped, or names no roster key, appends nothing |
| Tracker.ColonIdentifierNotTracked | tracker.py:51-54 | when no roster identifier holds a `:`, a line whose parsed identifier holds one appends nothing |
| Tracker.AliceRowId | tracker.py:29 | the row `Alice, a@x.com, abc123` is stored under `abc123` |
| Tracker.FullIsoTimestampNotTracked | tracker.py:48-70 | the roster `Alice, a@x.com, abc123` with the log line `2024-01-01T00:00:00: abc123` appends no report line |

## Left out

- The Flask application, route registration, the 404 handler and
  `app.run` are framework plumbing, and are not modelled.
- The info log `utm_logs.txt` is not modelled. It is a real file: the
  `FileHandler` set up at `redirect-server.py:18-25` appends the two
  `logger.info` lines of `redirect-server.py:44-45` to it on every request.
  `ParamHandler`'s `modifies clicks` covers only the click log. The console
  copy of those lines and the reporter's `print` diagnostics are not
  modelled either.
- RedirectServer.ParamHandler: assumes the append to the click log at
  `redirect-server.py:50-51` succeeds. In the source a failure to open or
  write that file raises, and the request gets no 302 redirect.
- Environment and dotenv configuration and `os.makedirs` are not
  modelled. The form URL is a parameter of `ParamHandler`, and each file
  is an `AppendFile` whose content the caller supplies.
- `datetime.now().isoformat()` is the `timestamp` parameter of
  `ParamHandler`.
- `urllib.parse.urlencode` is the `encode` function parameter. Its
  percent-encoding is not modelled.
- Werkzeug's `request.args` is not modelled. The query is the sequence of
  `(key, query_params[key])` pairs in iteration order. Which value Werkzeug
  gives for a repeated key is outside the model. The model accepts any
  sequence, repeated keys included; a later pair wins.
- `csv.DictReader` and file opening are not modelled.
  - A roster is a sequence of rows, each a map from column name to value.
    An absent column reads as `''`, as `row.get(col, '')` gives.
  - The `None` value a short CSV row yields is not modelled; it would make
    `.strip()` raise.
  - A missing file is `None`. The click log is its sequence of lines.
- Strings are sequences of Dafny `char`s, so the model assumes they hold no
  lone surrogates. That holds for the text the reporter reads, since both
  files are decoded as strict UTF-8 (`tracker.py:26` and `tracker.py:46`).
  `isspace` is modelled by its character set (ASCII tab to carriage
  return, 0x1c-0x20 and the Unicode whitespace characters).
- Concurrent requests writing to the click log at once are not modelled.
  Each write is one atomic append of the whole line.
- No round-trip lemma between the service's click-line writer and the
  reporter's reader is proved. That round trip does not hold for ISO
  timestamps (see `ColonTimestampLineParses`); it holds only for
  colon-free timestamps (`ColonFreeLineParses`).
