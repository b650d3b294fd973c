# Format-progress monitor of disk.py, modelled in Dafny

`disk.py` runs a destructive low-level format on a bay of SAS disks and
watches it. For each device the monitor runs `sg_requests` (plain, then
`--progress`) and reads its free-form output. It looks for a progress marker,
a percentage ("12.5%", or "A/65535" or "A/65536"), or an error word, and keeps a per-device
state: waiting, formatting, done or failed, with progress, an ETA and
an "ever started" flag. A raw-mode terminal loop redraws a dashboard
and reacts to keys: pause, refresh, interval +/- and quit.

This project models that core. Each module follows one part of the program:

- `text.dfy` (`Text`): character classes, decimal digits and rendering, and
  case-insensitive substring search.
- `duration.dfy` (`Duration`): `fmt_duration`. Its partner is a reader for
  "1h 02m 03s" / "2m 03s" / "5s", and the two are tied by a round-trip lemma.
- `ansi.dfy` (`Ansi`): `_ANSI_ESC` and `_vis_trunc`.
  - The reference definition splits the string into tokens (whole
    control sequences and single visible characters) and keeps tokens up to
    the width.
  - `VisTrunc` is the source's index loop, proved equal to that definition.
- `parser.dfy` (`ProgressParser`): the regular expressions of `_poll`.
  - Each is written out as "matches at index p, with value v", together with
    the leftmost search `re.search` performs.
  - Each matcher is also proved equal, in both directions, to a plain
    description of the text it accepts (`LiteralShape`, `RatioShape`).
  - Then comes the precedence: a literal percentage first, else a ratio.
- `devstate.dfy` (`DeviceState`): `DevState` and `_poll`.
  - `Step` is the pure state transition of one poll.
  - `DevState` is a class with the same fields, and its `Poll` method is
    proved to perform `Step`.
  - The operations log is a ghost sequence of lines.
- `dashboard.dfy` (`Dashboard`): the `_progress_ui` session loop.
  - The class `Monitor` holds the device states, the interval, pause and
    last-poll time, with key handling, the poll round and one loop tick.
  - Pure functions cover the poll schedule, the countdown, the bar width and
    fill, the tallies and the end condition.

Clock readings (`time.monotonic()`) are method parameters (`now`). What the
commands produce is also a parameter: one `Reply` per command, meaning output,
timeout, or a command that cannot be started.

Four behaviours of `disk.py` that the model keeps exactly as written:

- The progress shown is the latest reading, clamped to [0, 100], so it can go
  back (disk.py:379). It is not kept monotone.
- A failure sets the ETA to "--" (disk.py:383), not to an "unknown" sentinel.
- Only `subprocess.TimeoutExpired` is caught (disk.py:352). A command that
  cannot be started (an `OSError`, such as `sg_requests` being missing) leaves
  `_poll` and ends the session. The model marks this with `Raised` / `Crashed`;
  it is not treated like a timeout.
- A tick reads one chunk of at most four bytes and acts on its first byte only
  (disk.py:491-492). So an arrow key, whose sequence starts with ESC, quits
  like a bare ESC.

## Model

| member | source | states |
|---|---|---|
| Text.NatToString | disk.py:73-75 | the decimal rendering `str(n)` has digits only, reads back as n, and has no leading zero |
| Text.ContainsIgnoringCase | disk.py:360 | true exactly when the phrase occurs at some index, ignoring case |
| Duration.WholeSeconds | disk.py:70 | `max(0, int(secs))`: 0 for non-positive input, otherwise the whole part n with n <= secs < n + 1 |
| Duration.Split | disk.py:71-72 | the two divmod steps: hours*3600 + minutes*60 + seconds == n, minutes and seconds below 60 |
| Duration.Pad2 | disk.py:73-74 | `{:02d}` gives two digits whose value is n |
| Duration.RenderRoundTrip | disk.py:73-75 | any clock reading with minutes and seconds below 60, rendered in whichever of the three shapes applies, reads back as hours*3600 + minutes*60 + seconds |
| Duration.FormatClockRoundTrip | disk.py:71-75 | reading the rendering of a whole number of seconds back gives that number: all three shapes lose nothing |
| Duration.FmtDurationRoundTrip | disk.py:69-75 | fmt_duration(secs) reads back as max(0, int(secs)) |
| Duration.FmtDurationNonPositive | disk.py:69-75 | a duration of zero or less is written "0s" |
| Duration.FormatClockShape | disk.py:73-75 | an hours field appears exactly from 3600 s and a minutes field exactly from 60 s; the text always ends in the seconds field |
| Ansi.EscapeAtSound | disk.py:300 | what the escape pattern matches at an index is one whole sequence ESC [ [0-9;]* letter |
| Ansi.EscapeAtComplete | disk.py:300 | wherever such a sequence starts, the pattern matches exactly it (the match is unique) |
| Ansi.HeadChars | disk.py:307-311 | the token the walk takes at i stands for s[i..next]; it is a control token exactly when the escape pattern matches at i, and then it is one whole sequence |
| Ansi.TokenizeFlattens | disk.py:306-316 | the tokens of s from index i, joined, give back s from i |
| Ansi.TokenizeWellFormed | disk.py:306-316 | every control token of s from index i is one whole escape sequence |
| Ansi.TokenizeSound | disk.py:306-316 | the tokens the walk sees spell the input back, and every control token is a whole escape sequence |
| Ansi.KeptSlice | disk.py:306-316 | the kept tokens from index i spell exactly the slice of s from i up to where the walk stops |
| Ansi.KeepVisiblePrefix | disk.py:306-316 | the walk keeps a prefix of the token sequence |
| Ansi.KeepVisibleGlyphs | disk.py:312-315 | the visible characters kept are the first `width` ones (all of them when fewer) |
| Ansi.KeepVisibleAll | disk.py:312-315 | when no more than `width` characters are visible, every token is kept |
| Ansi.TruncateCopiesWholeTokens | disk.py:302-316 | the copied text is a prefix of s made of whole tokens, with at most max(width, 0) visible characters; it is all of s when s fits |
| Ansi.TruncateResets | disk.py:317-319 | the reset ESC[0m is appended exactly when the copied text contains an ESC character (a stray ESC copied as a visible character counts too); the result then ends with it, and otherwise it is the copied text |
| Ansi.VisTrunc | disk.py:302-319 | the index-walking loop returns exactly the reference truncation `Truncate(s, width)` |
| ProgressParser.Search | disk.py:362-368 | `re.search`: the index found is the leftmost one at which the pattern matches; None means no index matches |
| ProgressParser.LiteralNeedsPercent | disk.py:362 | a literal percentage match contains a '%' sign after its start |
| ProgressParser.NoPercentMeansRatio | disk.py:362-368 | output without '%' yields no literal, and its percentage is the ratio reading |
| ProgressParser.LiteralBounds | disk.py:362-364 | a literal's value lies between its whole part and the next integer |
| ProgressParser.RatioBounds | disk.py:366-368 | a ratio reading lies in [0, 99999*100/65535], so it can exceed 100 |
| ProgressParser.ExtractPctNonNegative | disk.py:361-368 | every percentage read is non-negative |
| ProgressParser.LiteralHere | disk.py:362-364 | digits, an optional fraction ".digits", optional white space and '%' at p match the literal pattern there, with the number's value |
| ProgressParser.LiteralMatch | disk.py:362-364 | whatever the literal pattern finds at p is digits, an optional fraction, optional white space and '%' spelled out there, with that number's value |
| ProgressParser.LiteralAtMeaning | disk.py:362-364 | the literal pattern finds v at p exactly when such a literal of value v is spelled out there |
| ProgressParser.RatioHere | disk.py:366-368 | at a word boundary, 1 to 5 digits A, optional white space, '/', optional white space and 65535 or 65536 (B) ending a word match the ratio pattern at p, with value A / B * 100 |
| ProgressParser.RatioMatch | disk.py:366-368 | whatever the ratio pattern finds at p is such a ratio spelled out there, with value A / B * 100 |
| ProgressParser.RatioAtMeaning | disk.py:366-368 | the ratio pattern finds v at p exactly when a ratio of value v is spelled out there |
| ProgressParser.LiteralFound | disk.py:361-364 | when p is the first index where a literal is spelled out, the output's percentage is that literal's number, whatever follows |
| ProgressParser.RatioFound | disk.py:361-368 | when no literal is spelled out anywhere and p is the first index where a ratio is, the output's percentage is A / B * 100, whatever follows |
| DeviceState.Clamp | disk.py:379 | the progress stored lies in [0, 100]: it is the reading when that is in range, 0 below it and 100 above it |
| DeviceState.RunCommands | disk.py:344-353 | the command loop yields exactly `Collect`: each finished command's stdout then stderr, in order; timeouts skipped; None as soon as a command cannot be started |
| DeviceState.CollectAllTimedOut | disk.py:345-353 | when every command times out, no output is collected |
| DeviceState.TerminalUnchanged | disk.py:341-342 | a done or failed device is left exactly as it is |
| DeviceState.TimeoutsUnchanged | disk.py:349-356 | when both commands time out, the state is unchanged |
| DeviceState.CannotRunRaises | disk.py:349-353 | a command that cannot be started makes the poll raise, unless the device is finished |
| DeviceState.JoinKeepsMatch | disk.py:351-360 | a phrase found in the output of either command is found in the joined output |
| DeviceState.ApplyPrecedence | disk.py:360-389 | a progress marker wins over an error word, which wins over silence; the error case sets failed / 0 / "--"; silence marks done only after a start |
| DeviceState.ProgressFollowsReading | disk.py:372-379 | with a marker and a reading, the progress becomes the clamped reading and the reading and time are recorded, so a lower reading moves progress back |
| DeviceState.MarkerWithoutPct | disk.py:370-372 | a marker without a readable percentage only sets formatting and ever-started |
| DeviceState.EtaMeaning | disk.py:373-376 | with positive elapsed time and progress, the ETA reads back as the whole seconds of (100 - pct) * dt / dp |
| DeviceState.EtaEdges | disk.py:376 | with no elapsed time or no progress the ETA is "--"; at or past 100% it reads back as 0 s |
| DeviceState.EtaReadable | disk.py:376 | the ETA is "--" or a string fmt_duration wrote |
| DeviceState.ApplyConsistent | disk.py:358-389 | the output handling keeps a state consistent: progress in [0, 100], waiting only before a start, done with 100% and "done", failed with 0% and "--", formatting with a readable ETA |
| DeviceState.StepConsistent | disk.py:340-389 | every poll keeps a consistent state consistent |
| DeviceState.StepTransitions | disk.py:340-389 | the status only moves forward: waiting to formatting or failed (never straight to done), formatting to done or failed, nothing out of done or failed |
| DeviceState.StepKeepsStarted | disk.py:370 | ever-started never goes back to false |
| DeviceState.DevState.constructor | disk.py:322-334 | a new device state is waiting, 0%, ETA "--", previous reading 0 at the creation time, with an empty log |
| DeviceState.DevState.ElapsedText | disk.py:336-338 | `fmt_duration(s.elapsed)` of a row (disk.py:416) reads back as the whole seconds since the device state was made, and is "0s" before that |
| DeviceState.DevState.Poll | disk.py:340-389 | `_poll` updates the fields to exactly `Step` of the old state, or leaves them untouched when it raises; it keeps the state consistent and logs exactly one FORMAT_FAILED / FORMAT_COMPLETE line when the device first becomes finished |
| DeviceState.DevState.Update | disk.py:358-389 | on a device not yet finished, the fields become `Apply` of the old state and the joined output; one log line is added exactly when the new status is final, and the state stays consistent |
| Dashboard.PerformValid | disk.py:496-497 | no key takes the interval out of 1..60, and only + and - change it |
| Dashboard.LongerShorterInverse | disk.py:496-497 | below 60, - undoes +; above 1, + undoes - |
| Dashboard.IntervalSaturates | disk.py:496-497 | + adds one second except at 60, - takes one away except at 1 |
| Dashboard.ToggleTwice | disk.py:494 | p flips pause, and twice restores the settings |
| Dashboard.RefreshForcesPoll | disk.py:495-500 | after r, with pause off and the clock past the interval, a poll is due |
| Dashboard.PausedNeverDue | disk.py:500 | while paused no poll is due |
| Dashboard.DecodeFirstByte | disk.py:491-492 | only the first byte of a chunk read decides the key |
| Dashboard.EscapeSequenceQuits | disk.py:493 | any chunk starting with ESC, an arrow key's sequence included, quits |
| Dashboard.IntPart | disk.py:465 | `int(x)` truncates toward zero, for negative and non-negative x |
| Dashboard.CountdownMeansDue | disk.py:465-500 | while not paused, "next poll in" shows 0 exactly when a poll is due, is never negative, and is at most the interval |
| Dashboard.BarWidth | disk.py:442-443 | the bar is 8 to 48 cells, equals the room left (cols - fixed - 2) when that is within range, 8 when the room is smaller and 48 when it is larger, and leaves the row within cols - 2 when there is room for 8 |
| Dashboard.Filled | disk.py:444 | the filled cells are the integer part of progress * width / 100, never more than the width |
| Dashboard.FilledEnds | disk.py:444 | the bar is full exactly at 100%, and empty exactly below 100 / width percent |
| Dashboard.FilledMonotone | disk.py:444 | more progress never fills fewer cells |
| Dashboard.BarShape | disk.py:445 | the bar has `width` cells, '#' exactly at the filled positions and '.' after them |
| Dashboard.FormattingBodyFits | disk.py:441-446 | a formatting row is the fixed text plus the bar, and fits in cols - 2 columns when there is room for the narrowest bar |
| Dashboard.TalliesCover | disk.py:454-457 | the done, failed, formatting and waiting tallies add up to the number of devices |
| Dashboard.CountZero | disk.py:454-462 | a tally is 0 exactly when no device has that status |
| Dashboard.FinishedByTallies | disk.py:505 | the session ends exactly when no device is waiting or formatting and some device ever started |
| Dashboard.FinishedCases | disk.py:505 | all finished with one done ends the session; if no device ever started (all failed from waiting, or no device) it never ends by itself |
| Dashboard.FinishedIsStable | disk.py:341-342 | once finished, a poll round changes no device |
| Dashboard.Monitor.constructor | disk.py:392-395 | one waiting device state per device, in order, with interval 5, pause off, last poll 0 |
| Dashboard.Monitor.HandleKey | disk.py:490-497 | the settings change as the first byte's key says; the result reports a quit key |
| Dashboard.Monitor.PollAll | disk.py:502-503 | every device is stepped in order; when one raises, those before it are stepped and it and those after it are untouched |
| Dashboard.Monitor.Tick | disk.py:489-515 | a quit key ends the tick before any poll and changes nothing; otherwise a poll round runs exactly when due, with last poll set to the tick's clock reading; a round that completes has stepped every device by its own poll; a crash comes from a device whose poll raised, with the devices before it stepped and the rest untouched; when no round is due the devices are unchanged; the tick reports completion exactly when the end condition holds |

## Left out

- Running `sg_requests`, the filesystem and the terminal are not modelled. This covers `sg_device`, `prep_for_format`, `termios`, `select`, `os.read` and `sys.stdout`. Their results are parameters: a `Reply` per command, an optional chunk per tick, and `now` clock readings.
- Logging to /var/log/diskops.log is modelled as a ghost list of the logged lines.
- Drawing is not modelled: header, timestamp, colours, labels, the divider, the legend and the footer. Only the parts of a row the code computes are: bar width, fill and row length.
- `f"{s.progress:6.2f}%"` is not modelled, because floating-point formatting is out of scope. The percentage text is a parameter of `FormattingBody`.
- Python floats are modelled as exact reals. Rounding in `float(...)`, in the ratio and in the ETA division is not captured.
- ProgressParser.LiteralAt: `\d` is ASCII 0-9 only. Python `str` patterns also accept other Unicode digits.
- ProgressParser.RatioAt: `\b` uses ASCII word characters only. Python also counts Unicode letters and digits as word characters. (`\s`, in both LiteralAt and RatioAt, is Python's full white-space set, the one `str.isspace` accepts.)
- Text.ContainsIgnoringCase: `re.I` is modelled as ASCII case folding. Unicode folds, such as 'ſ' matching 's', are not captured.
- DeviceState.DevState.constructor: `start` and `prev_time` come from two clock readings in the source. The model takes them as the same instant.
- DeviceState.DevState.Poll: the exception's type and its traceback are not modelled. Only the fact that it leaves `_poll` and ends the session is. The reply `CannotRun` stands for every exception other than `subprocess.TimeoutExpired`: an `OSError` from starting the command and a `UnicodeDecodeError` from decoding its output under `text=True` (disk.py:350) alike.
- Dashboard.Monitor.constructor: every device state is made at one clock reading `now`. In the source each `DevState(d)` of the list comprehension (disk.py:392) reads the clock itself (disk.py:332-334), so later devices start a little later.
- Dashboard.Monitor.Tick: the completion footer, the quit-only wait after completion (disk.py:506-512) and the 0.2 s sleep are not modelled. The tick reports `Complete` instead.
- The cleanup in the `finally` block is not modelled, because it is terminal I/O.
- The rest of disk.py is not part of this model: device discovery, lsblk and HDSentinel health, the format command and the menus.
