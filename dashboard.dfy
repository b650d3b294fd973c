/**
 * The session loop of `_progress_ui` (disk.py:391-519): keyboard controls,
 * the poll schedule, the end condition, and the pieces of the dashboard whose
 * layout is computed (bar width and fill, tallies, countdown).
 */
module Dashboard {
  import opened Wrappers
  import opened Text
  import opened DeviceState

  newtype byte = x: int | 0 <= x < 256

  /** The settings the keys change: poll interval in seconds, pause, time of the last poll. */
  datatype Controls = Controls(interval: int, paused: bool, lastPoll: real)

  /** `interval = 5`, `paused = False`, `last_poll = 0.0`. */
  const INITIAL: Controls := Controls(5, false, 0.0)

  /** The interval stays within 1..60 seconds. */
  predicate ValidControls(c: Controls) {
    1 <= c.interval <= 60
  }

  datatype Action = Quit | TogglePause | Refresh | Longer | Shorter | Ignore

  /**
   * The action of one chunk read from the terminal: only its first byte
   * counts (disk.py:492-497). q, Q, Ctrl-C and a bare ESC quit.
   */
  function Decode(chunk: seq<byte>): Action {
    if chunk == [] then Ignore
    else
      var k := chunk[0];
      if k == 0x71 || k == 0x51 || k == 0x03 || k == 0x1b then Quit
      else if k == 0x70 || k == 0x50 then TogglePause
      else if k == 0x72 || k == 0x52 then Refresh
      else if k == 0x2b then Longer
      else if k == 0x2d then Shorter
      else Ignore
  }

  /** What a key does to the settings; quitting leaves them as they are. */
  function Perform(c: Controls, a: Action): Controls {
    match a
    case TogglePause => c.(paused := !c.paused)
    case Refresh => c.(lastPoll := 0.0)
    case Longer => c.(interval := if c.interval + 1 < 60 then c.interval + 1 else 60)
    case Shorter => c.(interval := if c.interval - 1 > 1 then c.interval - 1 else 1)
    case _ => c
  }

  /** The settings after the input read in one tick, if any. */
  function AfterInput(c: Controls, input: Option<seq<byte>>): Controls {
    match input
    case None => c
    case Some(chunk) => Perform(c, Decode(chunk))
  }

  /** `not paused and (now - last_poll) >= interval` (disk.py:500). */
  predicate Due(c: Controls, now: real) {
    !c.paused && now - c.lastPoll >= c.interval as real
  }

  /** Keys never take the interval out of 1..60. */
  lemma PerformValid(c: Controls, a: Action)
    requires ValidControls(c)
    ensures ValidControls(Perform(c, a))
    ensures Perform(c, a).interval == c.interval || a == Longer || a == Shorter
  {
  }

  /** Below the upper bound, `-` undoes `+`; above the lower bound, `+` undoes `-`. */
  lemma LongerShorterInverse(c: Controls)
    requires ValidControls(c)
    ensures c.interval < 60 ==> Perform(Perform(c, Longer), Shorter) == c
    ensures c.interval > 1 ==> Perform(Perform(c, Shorter), Longer) == c
  {
  }

  /** At the bounds the interval saturates. */
  lemma IntervalSaturates(c: Controls)
    requires ValidControls(c)
    ensures c.interval == 60 ==> Perform(c, Longer) == c
    ensures c.interval == 1 ==> Perform(c, Shorter) == c
    ensures Perform(c, Longer).interval == c.interval + 1 || c.interval == 60
    ensures Perform(c, Shorter).interval == c.interval - 1 || c.interval == 1
  {
  }

  /** Pressing p twice leaves the settings as they were. */
  lemma ToggleTwice(c: Controls)
    ensures Perform(Perform(c, TogglePause), TogglePause) == c
    ensures Perform(c, TogglePause).paused != c.paused
  {
  }

  /**
   * `r` makes the next check find a poll due, unless paused, once the
   * clock has passed the interval (the clock counts from an arbitrary
   * point, typically boot, so in practice it always has).
   */
  lemma RefreshForcesPoll(c: Controls, now: real)
    requires !c.paused && now >= c.interval as real
    ensures Due(Perform(c, Refresh), now)
  {
  }

  /** While paused no poll is ever due. */
  lemma PausedNeverDue(c: Controls, now: real)
    requires c.paused
    ensures !Due(c, now)
  {
  }

  /** Bytes after the first one in a chunk are ignored. */
  lemma DecodeFirstByte(chunk: seq<byte>)
    requires chunk != []
    ensures Decode(chunk) == Decode(chunk[..1])
  {
  }

  /**
   * A chunk that starts with ESC quits, so the escape sequence of an arrow
   * or function key ends the monitor as a bare ESC does.
   */
  lemma EscapeSequenceQuits(chunk: seq<byte>)
    requires chunk != [] && chunk[0] == 0x1b
    ensures Decode(chunk) == Quit
    ensures Decode([0x1b, 0x5b, 0x41]) == Quit
  {
  }

  /** `int(x)`: truncation toward zero. */
  function IntPart(x: real): (n: int)
    ensures x >= 0.0 ==> 0 <= n && n as real <= x < n as real + 1.0
    ensures x < 0.0 ==> n <= 0 && n as real - 1.0 < x <= n as real
  {
    if x >= 0.0 then x.Floor else -((-x).Floor)
  }

  /** `max(0, interval - int(now - last_poll))` (disk.py:465). */
  function NextPollIn(c: Controls, now: real): int {
    var n := c.interval - IntPart(now - c.lastPoll);
    if n > 0 then n else 0
  }

  /** The countdown reads 0 exactly when a poll is due (while not paused). */
  lemma CountdownMeansDue(c: Controls, now: real)
    requires ValidControls(c) && !c.paused
    ensures NextPollIn(c, now) == 0 <==> Due(c, now)
    ensures 0 <= NextPollIn(c, now)
    ensures now >= c.lastPoll ==> NextPollIn(c, now) <= c.interval
  {
  }

  /** `max(8, min(48, cols - fixed_visible - 2))` (disk.py:443). */
  function BarWidth(cols: int, fixed: nat): (w: int)
    ensures 8 <= w <= 48
    ensures 8 <= cols - fixed - 2 <= 48 ==> w == cols - fixed - 2
    ensures cols - fixed - 2 >= 8 ==> fixed + w <= cols - 2
    ensures cols - fixed - 2 < 8 ==> w == 8
    ensures cols - fixed - 2 > 48 ==> w == 48
  {
    var room := cols - fixed - 2;
    var capped := if room < 48 then room else 48;
    if capped > 8 then capped else 8
  }

  /** `int(progress * bar_width / 100)` for a progress within [0, 100]. */
  function Filled(progress: real, width: nat): (n: nat)
    requires 0.0 <= progress <= 100.0
    ensures n <= width
    ensures n as real <= progress * width as real / 100.0 < n as real + 1.0
  {
    var x := progress * width as real / 100.0;
    ScaleBounds(progress, width as real);
    assert 0.0 <= x <= width as real;
    x.Floor
  }

  lemma ScaleBounds(p: real, w: real)
    requires 0.0 <= p <= 100.0 && 0.0 <= w
    ensures 0.0 <= p * w <= 100.0 * w
  {
    assert 0.0 <= p * w;
    assert 0.0 <= (100.0 - p) * w;
    assert 100.0 * w - p * w == (100.0 - p) * w;
  }

  /** The bar is full exactly at 100% and empty below 100 / width percent. */
  lemma FilledEnds(progress: real, width: nat)
    requires 0.0 <= progress <= 100.0 && width > 0
    ensures Filled(progress, width) == width <==> progress == 100.0
    ensures Filled(progress, width) == 0 <==> progress * width as real < 100.0
  {
    if progress < 100.0 {
      assert progress * width as real < 100.0 * width as real;
    }
  }

  /** More progress never fills fewer cells. */
  lemma FilledMonotone(p: real, q: real, width: nat)
    requires 0.0 <= p <= q <= 100.0
    ensures Filled(p, width) <= Filled(q, width)
  {
    var x := p * width as real / 100.0;
    var y := q * width as real / 100.0;
    assert p * width as real <= q * width as real;
    assert x <= y;
    assert (Filled(p, width) as real) <= x <= y < Filled(q, width) as real + 1.0;
  }

  function Repeat(c: char, n: nat): (r: string)
    ensures |r| == n && forall i :: 0 <= i < n ==> r[i] == c
  {
    if n == 0 then [] else Repeat(c, n - 1) + [c]
  }

  /** `"#" * filled + "." * (bar_width - filled)`. */
  function Bar(progress: real, width: nat): string
    requires 0.0 <= progress <= 100.0
  {
    var f := Filled(progress, width);
    Repeat('#', f) + Repeat('.', width - f)
  }

  /** The bar has `width` cells: the filled ones first, then the empty ones. */
  lemma BarShape(progress: real, width: nat)
    requires 0.0 <= progress <= 100.0
    ensures |Bar(progress, width)| == width
    ensures forall i :: 0 <= i < width ==>
      (Bar(progress, width)[i] == '#' <==> i < Filled(progress, width))
    ensures forall i :: 0 <= i < width ==> Bar(progress, width)[i] in {'#', '.'}
  {
    var f := Filled(progress, width);
    var b := Bar(progress, width);
    forall i | 0 <= i < width ensures (b[i] == '#' <==> i < f) && b[i] in {'#', '.'} {
      if i < f { assert b[i] == Repeat('#', f)[i]; }
      else { assert b[i] == Repeat('.', width - f)[i - f]; }
    }
  }

  /** The row body of a formatting device: `f"{left_prefix}[{bar}] {pct_str}{right_info}"`. */
  function FormattingBody(leftPrefix: string, pctStr: string, rightInfo: string,
                          progress: real, cols: int): string
    requires 0.0 <= progress <= 100.0
  {
    var fixed := |leftPrefix| + 2 + 1 + |pctStr| + |rightInfo|;
    var w := BarWidth(cols, fixed);
    leftPrefix + "[" + Bar(progress, w) + "] " + pctStr + rightInfo
  }

  /**
   * The body has exactly the fixed text plus the bar, and when there is room
   * for the narrowest bar it fits in `cols - 2` columns, so the truncation
   * to `cols - 1` columns leaves it whole.
   */
  lemma FormattingBodyFits(leftPrefix: string, pctStr: string, rightInfo: string,
                           progress: real, cols: int)
    requires 0.0 <= progress <= 100.0
    ensures var fixed := |leftPrefix| + 2 + 1 + |pctStr| + |rightInfo|;
      && |FormattingBody(leftPrefix, pctStr, rightInfo, progress, cols)| == fixed + BarWidth(cols, fixed)
      && (cols - fixed - 2 >= 8 ==> |FormattingBody(leftPrefix, pctStr, rightInfo, progress, cols)| <= cols - 2)
  {
    var fixed := |leftPrefix| + 2 + 1 + |pctStr| + |rightInfo|;
    BarShape(progress, BarWidth(cols, fixed));
  }

  /** How many devices have the given status (disk.py:454-457). */
  function Count(sts: seq<PollState>, s: Status): (n: nat)
    ensures n <= |sts|
    decreases |sts|
  {
    if sts == [] then 0
    else Count(sts[..|sts| - 1], s) + (if sts[|sts| - 1].status == s then 1 else 0)
  }

  /** The four tallies account for every device. */
  lemma {:induction false} TalliesCover(sts: seq<PollState>)
    ensures Count(sts, Done) + Count(sts, Failed) + Count(sts, Formatting) + Count(sts, Waiting) == |sts|
    decreases |sts|
  {
    if sts != [] {
      TalliesCover(sts[..|sts| - 1]);
    }
  }

  /** A tally is zero exactly when no device has that status. */
  lemma {:induction false} CountZero(sts: seq<PollState>, s: Status)
    ensures Count(sts, s) == 0 <==> forall k :: 0 <= k < |sts| ==> sts[k].status != s
    decreases |sts|
  {
    if sts != [] {
      var front := sts[..|sts| - 1];
      CountZero(front, s);
      assert forall k :: 0 <= k < |front| ==> front[k] == sts[k];
    }
  }

  /**
   * The end condition of the session loop (disk.py:505): every device done
   * or failed, and at least one of them ever reported progress.
   */
  predicate Finished(sts: seq<PollState>) {
    && (forall k :: 0 <= k < |sts| ==> sts[k].status.IsTerminal())
    && (exists k :: 0 <= k < |sts| && sts[k].everStarted)
  }

  /** Finished in terms of the tallies: nobody waiting or formatting, somebody started. */
  lemma FinishedByTallies(sts: seq<PollState>)
    ensures Finished(sts) <==>
      && Count(sts, Waiting) == 0 && Count(sts, Formatting) == 0
      && (exists k :: 0 <= k < |sts| && sts[k].everStarted)
  {
    CountZero(sts, Waiting);
    CountZero(sts, Formatting);
  }

  /**
   * With consistent states, one device done and the rest failed ends the
   * session; with no device ever started (all failed straight from waiting,
   * or no device at all) it never ends by itself.
   */
  lemma FinishedCases(sts: seq<PollState>)
    requires forall k :: 0 <= k < |sts| ==> Consistent(sts[k])
    ensures (forall k :: 0 <= k < |sts| ==> sts[k].status.IsTerminal()) && Count(sts, Done) > 0 ==> Finished(sts)
    ensures (forall k :: 0 <= k < |sts| ==> !sts[k].everStarted) ==> !Finished(sts)
    ensures sts == [] ==> !Finished(sts)
  {
    if Count(sts, Done) > 0 {
      CountZero(sts, Done);
      var k :| 0 <= k < |sts| && sts[k].status == Done;
      assert sts[k].everStarted;
    }
  }

  /** Once finished, a poll round changes no device: the end condition is stable. */
  lemma FinishedIsStable(sts: seq<PollState>, polls: seq<PollInput>)
    requires Finished(sts) && |polls| == |sts|
    ensures forall k :: 0 <= k < |sts| ==> Step(sts[k], polls[k].replies, polls[k].now) == Polled(sts[k])
  {
  }

  /** What the sg_requests runs give for one device in a poll round, and the clock reading `_poll` takes. */
  datatype PollInput = PollInput(replies: seq<Reply>, now: real)

  /** What ends, or does not end, one tick of the session loop. */
  datatype TickOutcome = QuitKey | Crashed | Complete | Continue

  /** A device as the monitor is given it. */
  datatype DeviceInfo = DeviceInfo(path: string, slot: Slot, model: string, serial: string)

  /**
   * A poll round over `before` has reached device j: the devices before j
   * took their step, the others are as they were.
   */
  predicate SteppedUpTo(before: seq<PollState>, after: seq<PollState>, polls: seq<PollInput>, j: nat)
  {
    && |before| == |after| == |polls| && j <= |before|
    && (forall k :: 0 <= k < j ==> Step(before[k], polls[k].replies, polls[k].now) == Polled(after[k]))
    && (forall k :: j <= k < |before| ==> after[k] == before[k])
  }

  /**
   * What a poll round did to the device states: a round that completes has
   * stepped every device by its own poll; a round that raised stopped at a
   * device whose poll raised, with the devices before it stepped and the
   * rest untouched.
   */
  predicate RoundOutcome(before: seq<PollState>, after: seq<PollState>, polls: seq<PollInput>, raised: bool)
    requires |before| == |polls|
  {
    && (!raised ==> SteppedUpTo(before, after, polls, |before|))
    && (raised ==>
          exists j :: 0 <= j < |before|
            && Step(before[j], polls[j].replies, polls[j].now) == Raised
            && SteppedUpTo(before, after, polls, j))
  }

  /** The state of `_progress_ui`: the device states and the settings. */
  class Monitor {
    const states: seq<DevState>
    var interval: int
    var paused: bool
    var lastPoll: real

    function Settings(): Controls
      reads this
    {
      Controls(interval, paused, lastPoll)
    }

    function Snapshots(): seq<PollState>
      reads this, states
    {
      seq(|states|, k reads this, states requires 0 <= k < |states| => states[k].Snapshot())
    }

    /** The snapshots are cur when every device's snapshot is its entry of cur. */
    lemma SnapshotsAre(cur: seq<PollState>)
      requires |cur| == |states|
      requires forall k :: 0 <= k < |states| ==> states[k].Snapshot() == cur[k]
      ensures Snapshots() == cur
    {
    }

    ghost predicate Valid()
      reads this, states
    {
      && ValidControls(Settings())
      && (forall i, j :: 0 <= i < j < |states| ==> states[i] != states[j])
      && (forall k :: 0 <= k < |states| ==> states[k].Valid())
    }

    /** `[DevState(d) for d in devices]` and the initial settings, all at clock reading `now`. */
    constructor (devices: seq<DeviceInfo>, now: real)
      ensures Valid()
      ensures Settings() == INITIAL
      ensures |states| == |devices| && Snapshots() == seq(|devices|, k => Initial(now))
      ensures forall k :: 0 <= k < |states| ==> fresh(states[k])
      ensures forall k :: 0 <= k < |states| ==>
        states[k].path == devices[k].path && states[k].slot == devices[k].slot
        && states[k].model == devices[k].model && states[k].serial == devices[k].serial
    {
      var made: seq<DevState> := [];
      var i := 0;
      while i < |devices|
        invariant 0 <= i <= |devices| && |made| == i
        invariant forall k :: 0 <= k < i ==> fresh(made[k])
        invariant forall a, b :: 0 <= a < b < i ==> made[a] != made[b]
        invariant forall k :: 0 <= k < i ==> made[k].Valid() && made[k].Snapshot() == Initial(now)
        invariant forall k :: 0 <= k < i ==>
          made[k].path == devices[k].path && made[k].slot == devices[k].slot
          && made[k].model == devices[k].model && made[k].serial == devices[k].serial
      {
        var d := devices[i];
        var st := new DevState(d.path, d.slot, d.model, d.serial, now);
        made := made + [st];
        i := i + 1;
      }
      states := made;
      interval := 5;
      paused := false;
      lastPoll := 0.0;
    }

    /** Handles one chunk read from the terminal; returns true for a quit key. */
    method HandleKey(chunk: seq<byte>) returns (quit: bool)
      requires Valid()
      modifies this
      ensures Valid()
      ensures quit <==> Decode(chunk) == Quit
      ensures Settings() == Perform(old(Settings()), Decode(chunk))
    {
      var action := Decode(chunk);
      PerformValid(Settings(), action);
      quit := false;
      if action == Quit {
        quit := true;
      } else if action == TogglePause {
        paused := !paused;
      } else if action == Refresh {
        lastPoll := 0.0;
      } else if action == Longer {
        interval := if interval + 1 < 60 then interval + 1 else 60;
      } else if action == Shorter {
        interval := if interval - 1 > 1 then interval - 1 else 1;
      }
    }

    /**
     * `for s in states: _poll(s)`: polls every device in order; an exception
     * from one device's poll leaves the devices after it untouched and ends
     * the round (true).
     */
    method PollAll(polls: seq<PollInput>) returns (raised: bool)
      requires Valid() && |polls| == |states|
      modifies states
      ensures Valid()
      ensures !raised ==> SteppedUpTo(old(Snapshots()), Snapshots(), polls, |states|)
      ensures raised ==>
        exists j :: 0 <= j < |states|
          && Step(old(Snapshots())[j], polls[j].replies, polls[j].now) == Raised
          && SteppedUpTo(old(Snapshots()), Snapshots(), polls, j)
    {
      ghost var before := Snapshots();
      ghost var cur := before;
      var i := 0;
      while i < |states|
        invariant 0 <= i <= |states| && |cur| == |states|
        invariant forall k :: 0 <= k < |states| ==> states[k].Valid() && states[k].Snapshot() == cur[k]
        invariant SteppedUpTo(before, cur, polls, i)
      {
        var r := states[i].Poll(polls[i].replies, polls[i].now);
        if r {
          SnapshotsAre(cur);
          assert Step(before[i], polls[i].replies, polls[i].now) == Raised && SteppedUpTo(before, Snapshots(), polls, i);
          return true;
        }
        cur := cur[i := states[i].Snapshot()];
        forall k | 0 <= k < |states| && k != i
          ensures states[k].Valid() && states[k].Snapshot() == cur[k]
        {
          assert states[k] != states[i];
        }
        i := i + 1;
      }
      SnapshotsAre(cur);
      return false;
    }

    /**
     * One pass of the session loop: the key read in this tick (if any), then
     * a poll round when one is due, then the end check.
     */
    method Tick(input: Option<seq<byte>>, now: real, polls: seq<PollInput>) returns (outcome: TickOutcome)
      requires Valid() && |polls| == |states|
      modifies this, states
      ensures Valid()
      ensures outcome == QuitKey <==> input.Some? && Decode(input.value) == Quit
      ensures outcome == QuitKey ==> Settings() == old(Settings()) && Snapshots() == old(Snapshots())
      ensures outcome != QuitKey ==>
        var c := AfterInput(old(Settings()), input);
        && Settings() == (if Due(c, now) then c.(lastPoll := now) else c)
        && (!Due(c, now) ==> Snapshots() == old(Snapshots()))
        && (outcome == Crashed ==> Due(c, now))
        && (Due(c, now) ==> RoundOutcome(old(Snapshots()), Snapshots(), polls, outcome == Crashed))
        && (outcome == Complete ==> Finished(Snapshots()))
        && (outcome == Continue ==> !Finished(Snapshots()))
    {
      if input.Some? {
        var quit := HandleKey(input.value);
        if quit {
          return QuitKey;
        }
      }
      if Due(Settings(), now) {
        lastPoll := now;
        ghost var before := Snapshots();
        assert before == old(Snapshots());
        var raised := PollAll(polls);
        assert RoundOutcome(before, Snapshots(), polls, raised);
        if raised {
          return Crashed;
        }
      }
      if Finished(Snapshots()) {
        return Complete;
      }
      return Continue;
    }
  }
}
