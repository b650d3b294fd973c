/**
 * `DevState` and `_poll` (disk.py:321-389): the per-device state machine of
 * the format-progress monitor.
 *
 * PollState is the value of the mutable fields; Step is what one `_poll`
 * call does to it, given what the two `sg_requests` runs produced and the
 * clock reading taken when a percentage is found. The class DevState keeps
 * the same fields and its Poll method is proved to perform Step.
 */
module DeviceState {
  import opened Wrappers
  import opened Text
  import opened Duration
  import opened ProgressParser

  datatype Status = Waiting | Formatting | Done | Failed {
    /** "done" and "failed" end polling for the device. */
    predicate IsTerminal() { this == Done || this == Failed }
  }

  /** A bay number, or "?" for a device whose port is not in the slot table. */
  datatype Slot = Bay(n: nat) | Unknown {
    function Text(): string {
      match this
      case Bay(n) => NatToString(n)
      case Unknown => "?"
    }
  }

  /** The fields of DevState that `_poll` updates. */
  datatype PollState = PollState(
    status: Status,
    everStarted: bool,
    progress: real,
    eta: string,
    prevPct: real,
    prevTime: real)

  /** The state of a device that has not been polled yet. */
  function Initial(now: real): PollState {
    PollState(Waiting, false, 0.0, "--", 0.0, now)
  }

  /** One `subprocess.run` of sg_requests: its output, a timeout, or an OSError. */
  datatype Reply = Output(stdout: string, stderr: string) | TimedOut | CannotRun

  /**
   * The `outputs` list of `_poll`: stdout followed by stderr of each command
   * that finished, in order; timed-out commands are skipped, and a command
   * that cannot be started raises out of `_poll` (None).
   */
  function Collect(replies: seq<Reply>): Option<seq<string>>
    decreases |replies|
  {
    if replies == [] then Some([])
    else
      match Collect(replies[..|replies| - 1])
      case None => None
      case Some(outs) =>
        match replies[|replies| - 1]
        case Output(o, e) => Some(outs + [o + e])
        case TimedOut => Some(outs)
        case CannotRun => None
  }

  /** `"\n".join(outputs)`. */
  function JoinLines(outs: seq<string>): string
    decreases |outs|
  {
    if outs == [] then ""
    else if |outs| == 1 then outs[0]
    else JoinLines(outs[..|outs| - 1]) + "\n" + outs[|outs| - 1]
  }

  /** `max(0.0, min(100.0, pct))`. */
  function Clamp(pct: real): (r: real)
    ensures 0.0 <= r <= 100.0
    ensures 0.0 <= pct <= 100.0 ==> r == pct
    ensures pct < 0.0 ==> r == 0.0
    ensures pct > 100.0 ==> r == 100.0
  {
    if pct < 0.0 then 0.0 else if pct > 100.0 then 100.0 else pct
  }

  /**
   * The ETA string: the time left at the rate observed since the previous
   * reading, when both the elapsed time and the progress made are positive.
   */
  function Eta(pct: real, prevPct: real, prevTime: real, now: real): string {
    var dt := now - prevTime;
    var dp := pct - prevPct;
    if dt > 0.0 && dp > 0.0 then FmtDuration((100.0 - pct) / (dp / dt)) else "--"
  }

  /** What `_poll` does with the joined output of the commands that finished. */
  function Apply(st: PollState, output: string, now: real): PollState {
    match Classify(output)
    case InProgress(None) =>
      st.(status := Formatting, everStarted := true)
    case InProgress(Some(pct)) =>
      st.(status := Formatting, everStarted := true,
          eta := Eta(pct, st.prevPct, st.prevTime, now),
          prevPct := pct, prevTime := now, progress := Clamp(pct))
    case Errored =>
      st.(status := Failed, progress := 0.0, eta := "--")
    case Silent =>
      if st.everStarted then st.(status := Done, progress := 100.0, eta := "done") else st
  }

  datatype Outcome = Polled(next: PollState) | Raised

  /** One call of `_poll`. */
  function Step(st: PollState, replies: seq<Reply>, now: real): Outcome {
    if st.status.IsTerminal() then Polled(st)
    else
      match Collect(replies)
      case None => Raised
      case Some(outs) =>
        if outs == [] then Polled(st) else Polled(Apply(st, JoinLines(outs), now))
  }

  /**
   * What holds of every state a device reaches: progress within [0, 100],
   * "waiting" only before any progress marker, "done" with 100% and "failed"
   * with 0%, and an ETA that is "--" or a duration fmt_duration wrote.
   */
  predicate Consistent(st: PollState) {
    && 0.0 <= st.progress <= 100.0
    && (st.status == Waiting ==> !st.everStarted && st.progress == 0.0 && st.eta == "--")
    && (st.status == Formatting ==> st.everStarted && (st.eta == "--" || ParseDuration(st.eta).Some?))
    && (st.status == Done ==> st.everStarted && st.progress == 100.0 && st.eta == "done")
    && (st.status == Failed ==> st.progress == 0.0 && st.eta == "--")
  }

  /** The line `_poll` logs when a device fails or completes. */
  function LogLine(failed: bool, slot: Slot, path: string, model: string, serial: string): string {
    (if failed then "FORMAT_FAILED" else "FORMAT_COMPLETE")
    + " slot=" + slot.Text() + " dev=" + path + " model=" + model + " serial=" + serial
  }

  /** Collect stays None once a command could not be started. */
  lemma {:induction false} CollectRaisedStays(replies: seq<Reply>, i: nat)
    requires i <= |replies|
    requires Collect(replies[..i]) == None
    ensures Collect(replies) == None
    decreases |replies| - i
  {
    if i < |replies| {
      assert replies[..i + 1][..i] == replies[..i];
      CollectRaisedStays(replies, i + 1);
    } else {
      assert replies[..i] == replies;
    }
  }

  /** When every command times out there is no output at all. */
  lemma {:induction false} CollectAllTimedOut(replies: seq<Reply>)
    requires forall k :: 0 <= k < |replies| ==> replies[k] == TimedOut
    ensures Collect(replies) == Some([])
    decreases |replies|
  {
    if replies != [] {
      CollectAllTimedOut(replies[..|replies| - 1]);
    }
  }

  /** A device that is done or failed is never polled again: nothing changes. */
  lemma TerminalUnchanged(st: PollState, replies: seq<Reply>, now: real)
    requires st.status.IsTerminal()
    ensures Step(st, replies, now) == Polled(st)
  {
  }

  /** When both commands time out, `_poll` returns without touching the state. */
  lemma TimeoutsUnchanged(st: PollState, replies: seq<Reply>, now: real)
    requires forall k :: 0 <= k < |replies| ==> replies[k] == TimedOut
    ensures Step(st, replies, now) == Polled(st)
  {
    CollectAllTimedOut(replies);
  }

  /** A command that cannot be started makes `_poll` raise, unless the device is already finished. */
  lemma CannotRunRaises(st: PollState, replies: seq<Reply>, i: nat, now: real)
    requires i < |replies| && replies[i] == CannotRun
    requires Collect(replies[..i]).Some?
    ensures Step(st, replies, now) == if st.status.IsTerminal() then Polled(st) else Raised
  {
    assert replies[..i + 1][..i] == replies[..i];
    CollectRaisedStays(replies, i + 1);
  }

  /** The progress marker takes precedence over an error word, and either over silence. */
  lemma ApplyPrecedence(st: PollState, output: string, now: real)
    ensures HasProgressMarker(output) ==>
      Apply(st, output, now).status == Formatting && Apply(st, output, now).everStarted
    ensures !HasProgressMarker(output) && HasErrorWord(output) ==>
      Apply(st, output, now) == st.(status := Failed, progress := 0.0, eta := "--")
    ensures !HasProgressMarker(output) && !HasErrorWord(output) ==>
      Apply(st, output, now) == if st.everStarted then st.(status := Done, progress := 100.0, eta := "done") else st
  {
  }

  /**
   * Progress follows the latest reading, clamped to [0, 100]: a lower
   * reading than before makes the progress go back.
   */
  lemma ProgressFollowsReading(st: PollState, output: string, now: real, pct: real)
    requires ExtractPct(output) == Some(pct) && HasProgressMarker(output)
    ensures Apply(st, output, now).progress == Clamp(pct)
    ensures Apply(st, output, now).prevPct == pct && Apply(st, output, now).prevTime == now
    ensures 0.0 <= pct <= 100.0 && pct < st.progress ==> Apply(st, output, now).progress < st.progress
  {
  }

  /** A marker without a percentage keeps the previous progress, reading and ETA. */
  lemma MarkerWithoutPct(st: PollState, output: string, now: real)
    requires HasProgressMarker(output) && ExtractPct(output).None?
    ensures Apply(st, output, now) == st.(status := Formatting, everStarted := true)
  {
  }

  /**
   * With positive elapsed time and progress, the ETA reads back as the time
   * to reach 100% at the observed rate, (100 - pct) * dt / dp seconds.
   */
  lemma EtaMeaning(pct: real, prevPct: real, prevTime: real, now: real)
    requires now - prevTime > 0.0 && pct - prevPct > 0.0
    ensures ParseDuration(Eta(pct, prevPct, prevTime, now)) == Some(WholeSeconds(SecondsLeft(pct, prevPct, prevTime, now)))
  {
    var dt := now - prevTime;
    var dp := pct - prevPct;
    var left := (100.0 - pct) / (dp / dt);
    assert Eta(pct, prevPct, prevTime, now) == FmtDuration(left);
    DivideByRate(pct, prevPct, prevTime, now);
    FmtDurationRoundTrip(left);
  }

  /** Seconds to reach 100% from pct at the rate dp / dt, written as (100 - pct) * dt / dp. */
  function SecondsLeft(pct: real, prevPct: real, prevTime: real, now: real): real
    requires pct - prevPct > 0.0
  {
    (100.0 - pct) * (now - prevTime) / (pct - prevPct)
  }

  /** Dividing by the rate dp / dt is multiplying by dt / dp. */
  lemma DivideByRate(pct: real, prevPct: real, prevTime: real, now: real)
    requires now - prevTime > 0.0 && pct - prevPct > 0.0
    ensures (100.0 - pct) / ((pct - prevPct) / (now - prevTime)) == SecondsLeft(pct, prevPct, prevTime, now)
  {
    var a := 100.0 - pct;
    var dp := pct - prevPct;
    var dt := now - prevTime;
    var r := dp / dt;
    assert r * dt == dp;
    assert (a / r) * dp == (a / r) * r * dt;
    assert a / r == a * dt / dp;
  }

  /** With no elapsed time or no progress the ETA is "--"; at or past 100% it is "0s". */
  lemma EtaEdges(pct: real, prevPct: real, prevTime: real, now: real)
    ensures now - prevTime <= 0.0 || pct - prevPct <= 0.0 ==> Eta(pct, prevPct, prevTime, now) == "--"
    ensures now - prevTime > 0.0 && pct - prevPct > 0.0 && pct >= 100.0 ==>
      ParseDuration(Eta(pct, prevPct, prevTime, now)) == Some(0)
  {
    if now - prevTime > 0.0 && pct - prevPct > 0.0 && pct >= 100.0 {
      var dt := now - prevTime;
      var dp := pct - prevPct;
      assert dp / dt > 0.0;
      assert (100.0 - pct) / (dp / dt) <= 0.0;
      FmtDurationRoundTrip((100.0 - pct) / (dp / dt));
    }
  }

  /** The ETA is always "--" or a duration written by fmt_duration. */
  lemma EtaReadable(pct: real, prevPct: real, prevTime: real, now: real)
    ensures Eta(pct, prevPct, prevTime, now) == "--" || ParseDuration(Eta(pct, prevPct, prevTime, now)).Some?
  {
    var dt := now - prevTime;
    var dp := pct - prevPct;
    if dt > 0.0 && dp > 0.0 {
      FmtDurationRoundTrip((100.0 - pct) / (dp / dt));
    }
  }

  /** Apply keeps a consistent state consistent. */
  lemma ApplyConsistent(st: PollState, output: string, now: real)
    requires Consistent(st) && !st.status.IsTerminal()
    ensures Consistent(Apply(st, output, now))
  {
    match Classify(output)
    case InProgress(Some(pct)) =>
      EtaReadable(pct, st.prevPct, st.prevTime, now);
    case _ =>
  }

  /** Every poll keeps a consistent state consistent. */
  lemma StepConsistent(st: PollState, replies: seq<Reply>, now: real)
    requires Consistent(st)
    ensures Step(st, replies, now).Polled? ==> Consistent(Step(st, replies, now).next)
  {
    if !st.status.IsTerminal() && Collect(replies).Some? && Collect(replies).value != [] {
      ApplyConsistent(st, JoinLines(Collect(replies).value), now);
    }
  }

  /**
   * The status moves only forwards: waiting to formatting or failed (never
   * straight to done), formatting to done or failed, and never out of done
   * or failed.
   */
  lemma StepTransitions(st: PollState, replies: seq<Reply>, now: real)
    requires Consistent(st)
    ensures Step(st, replies, now).Polled? ==>
      var s := Step(st, replies, now).next.status;
      && (st.status == Waiting ==> s in {Waiting, Formatting, Failed})
      && (st.status == Formatting ==> s in {Formatting, Done, Failed})
      && (st.status.IsTerminal() ==> s == st.status)
  {
  }

  /** `ever_started` never goes back to false. */
  lemma StepKeepsStarted(st: PollState, replies: seq<Reply>, now: real)
    requires st.everStarted
    ensures Step(st, replies, now).Polled? ==> Step(st, replies, now).next.everStarted
  {
  }

  /** A progress marker in the output of either command is seen in the joined output. */
  lemma {:induction false} JoinKeepsMatch(outs: seq<string>, k: nat, pat: string)
    requires k < |outs| && ContainsIgnoringCase(outs[k], pat)
    ensures ContainsIgnoringCase(JoinLines(outs), pat)
    decreases |outs|
  {
    var i :| MatchesAt(outs[k], i, pat);
    if |outs| > 1 {
      var front := outs[..|outs| - 1];
      var a := JoinLines(front);
      var last := outs[|outs| - 1];
      if k < |outs| - 1 {
        assert front[k] == outs[k];
        JoinKeepsMatch(front, k, pat);
        var j :| MatchesAt(a, j, pat);
        MatchShifts(a, a + "\n" + last, j, pat, 0);
      } else {
        MatchShifts(last, a + "\n" + last, i, pat, |a| + 1);
      }
    }
  }

  /** A match inside t is a match inside any string that holds t at offset d. */
  lemma MatchShifts(t: string, s: string, i: nat, pat: string, d: nat)
    requires MatchesAt(t, i, pat)
    requires d + |t| <= |s| && s[d..d + |t|] == t
    ensures MatchesAt(s, d + i, pat)
  {
    forall j | 0 <= j < |pat| ensures Lower(s[d + i + j]) == Lower(pat[j]) {
      assert s[d + i + j] == s[d..d + |t|][i + j];
    }
  }

  /**
   * The command loop of `_poll`: each reply in turn, appending the output of a
   * command that finished, skipping one that timed out, and stopping with None
   * at one that could not be started.
   */
  method RunCommands(replies: seq<Reply>) returns (outputs: Option<seq<string>>)
    ensures outputs == Collect(replies)
  {
    var outs: seq<string> := [];
    var i := 0;
    while i < |replies|
      invariant 0 <= i <= |replies|
      invariant Collect(replies[..i]) == Some(outs)
    {
      assert replies[..i + 1][..i] == replies[..i];
      if replies[i].CannotRun? {
        CollectRaisedStays(replies, i + 1);
        return None;
      }
      if replies[i].Output? {
        outs := outs + [replies[i].stdout + replies[i].stderr];
      }
      i := i + 1;
    }
    assert replies[..i] == replies;
    return Some(outs);
  }

  /** The state of one device in the monitor, updated in place by Poll. */
  class DevState {
    const path: string
    const slot: Slot
    const model: string
    const serial: string
    const start: real
    var status: Status
    var everStarted: bool
    var progress: real
    var eta: string
    var prevPct: real
    var prevTime: real
    /** The lines written to the operations log for this device. */
    ghost var log: seq<string>

    function Snapshot(): PollState
      reads this
    {
      PollState(status, everStarted, progress, eta, prevPct, prevTime)
    }

    /** The line logged when the device reached its final status. */
    function FinalLine(): string
      reads this
    {
      LogLine(status == Failed, slot, path, model, serial)
    }

    /** A consistent state, and exactly one log line once, and only once, the device is finished. */
    ghost predicate Valid()
      reads this
    {
      && Consistent(Snapshot())
      && log == (if status.IsTerminal() then [FinalLine()] else [])
    }

    /** `DevState(device)`: the two clock readings are taken as the same instant `now`. */
    constructor (path: string, slot: Slot, model: string, serial: string, now: real)
      ensures Valid()
      ensures this.path == path && this.slot == slot && this.model == model && this.serial == serial
      ensures start == now && Snapshot() == Initial(now) && log == []
    {
      this.path := path;
      this.slot := slot;
      this.model := model;
      this.serial := serial;
      start := now;
      status := Waiting;
      everStarted := false;
      progress := 0.0;
      eta := "--";
      prevPct := 0.0;
      prevTime := now;
      log := [];
    }

    /**
     * `fmt_duration(s.elapsed)`, the "Elapsed:" text of the device's row,
     * where `elapsed` is the clock reading `now` minus `start`: it
     * reads back as the whole seconds since the start, and is "0s" for a
     * clock reading not past the start.
     */
    function ElapsedText(now: real): (t: string)
      reads this
      ensures ParseDuration(t) == Some(WholeSeconds(now - start))
      ensures now <= start ==> t == "0s"
    {
      var elapsed := now - start;
      FmtDurationRoundTrip(elapsed);
      FmtDurationNonPositive(elapsed);
      FmtDuration(elapsed)
    }

    /**
     * `_poll(state)`: `replies` are what the sg_requests runs gave, in the
     * order they were started, and `now` the clock reading taken when a
     * percentage is found. Returns true when a command could not be started
     * and the exception leaves `_poll`, with the state untouched.
     */
    method Poll(replies: seq<Reply>, now: real) returns (raised: bool)
      requires Valid()
      modifies this
      ensures Valid()
      ensures raised <==> Step(old(Snapshot()), replies, now).Raised?
      ensures raised ==> Snapshot() == old(Snapshot())
      ensures !raised ==> Snapshot() == Step(old(Snapshot()), replies, now).next
      ensures log == old(log) + (if !old(status).IsTerminal() && status.IsTerminal() then [FinalLine()] else [])
    {
      if status == Done || status == Failed {
        return false;
      }
      var outputs := RunCommands(replies);
      if outputs.None? {
        return true;
      }
      if outputs.value == [] {
        return false;
      }
      Update(JoinLines(outputs.value), now);
      raised := false;
    }

    /** The part of `_poll` after the commands ran: the fields set from their joined output. */
    method Update(output: string, now: real)
      requires Valid() && !status.IsTerminal()
      modifies this
      ensures Valid()
      ensures Snapshot() == Apply(old(Snapshot()), output, now)
      ensures log == old(log) + (if status.IsTerminal() then [FinalLine()] else [])
    {
      var signal := Classify(output);
      if signal.InProgress? {
        everStarted := true;
        status := Formatting;
        if signal.pct.Some? {
          var pct := signal.pct.value;
          eta := Eta(pct, prevPct, prevTime, now);
          prevPct := pct;
          prevTime := now;
          progress := Clamp(pct);
        }
      } else if signal.Errored? {
        status := Failed;
        progress := 0.0;
        eta := "--";
        log := log + [LogLine(true, slot, path, model, serial)];
      } else if everStarted {
        status := Done;
        progress := 100.0;
        eta := "done";
        log := log + [LogLine(false, slot, path, model, serial)];
      }
      ApplyConsistent(old(Snapshot()), output, now);
    }
  }
}
