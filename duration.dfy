/**
 * `fmt_duration` (disk.py:69-75): seconds to "1h 02m 03s", "2m 03s" or "5s".
 * Its partner is ParseDuration, which reads such a string back, and the
 * round trip ParseDuration(FmtDuration(x)) == Some(WholeSeconds(x)).
 */
module Duration {
  import opened Wrappers
  import opened Text

  datatype Clock = Clock(hours: nat, minutes: nat, seconds: nat)

  /** `max(0, int(secs))`: truncation toward zero, negative inputs clamped to 0. */
  function WholeSeconds(secs: real): (n: nat)
    ensures secs <= 0.0 ==> n == 0
    ensures secs >= 0.0 ==> n as real <= secs < n as real + 1.0
  {
    if secs <= 0.0 then 0 else secs.Floor
  }

  /** The two `divmod` steps: hours, then minutes and seconds of the remainder. */
  function Split(n: nat): (c: Clock)
    ensures c.hours * 3600 + c.minutes * 60 + c.seconds == n
    ensures c.minutes < 60 && c.seconds < 60
  {
    var rem := n % 3600;
    Clock(n / 3600, rem / 60, rem % 60)
  }

  /** `f"{n:02d}"` for n < 100. */
  function Pad2(n: nat): (r: string)
    requires n < 100
    ensures |r| == 2 && AllDigits(r) && DigitsValue(r) == n
  {
    var r := [DigitChar(n / 10), DigitChar(n % 10)];
    assert r[..1] == [DigitChar(n / 10)] && r[..1][..0] == [];
    assert DigitsValue(r[..1]) == n / 10;
    r
  }

  /** The three output shapes of fmt_duration, for the fields of a clock reading. */
  function Render(c: Clock): string
    requires c.minutes < 60 && c.seconds < 60
  {
    if c.hours > 0 then
      NatToString(c.hours) + "h " + (Pad2(c.minutes) + "m " + (Pad2(c.seconds) + "s"))
    else if c.minutes > 0 then
      NatToString(c.minutes) + "m " + (Pad2(c.seconds) + "s")
    else
      NatToString(c.seconds) + "s"
  }

  /** fmt_duration for a whole number of seconds. */
  function FormatClock(n: nat): string {
    Render(Split(n))
  }

  function FmtDuration(secs: real): string {
    FormatClock(WholeSeconds(secs))
  }

  function UnitSeconds(u: char): nat {
    if u == 'h' then 3600 else if u == 'm' then 60 else 1
  }

  /**
   * Reads a duration written as fields "<digits><unit>" separated by single
   * spaces, the units being h or m, and the last field's unit s.
   */
  function ParseDuration(t: string): Option<nat>
    decreases |t|
  {
    var k := DigitRun(t);
    if k == 0 || k >= |t| then None
    else
      var v := DigitsValue(t[..k]);
      var u := t[k];
      if u == 's' && k + 1 == |t| then Some(v)
      else if (u == 'h' || u == 'm') && k + 1 < |t| && t[k + 1] == ' ' then
        AddField(v * UnitSeconds(u), ParseDuration(t[k + 2..]))
      else None
  }

  /** A leading field's seconds added to what the remaining fields read as. */
  function AddField(v: nat, rest: Option<nat>): Option<nat> {
    if rest.Some? then Some(v + rest.value) else None
  }

  lemma ParseLastField(ds: string)
    requires |ds| > 0 && AllDigits(ds)
    ensures ParseDuration(ds + "s") == Some(DigitsValue(ds))
  {
    DigitRunOf(ds, "s");
  }

  /** One "<digits><h|m> " field in front of the rest, seen from ParseDuration's side. */
  lemma ParseStep(t: string, k: nat)
    requires 0 < k && k + 1 < |t| && DigitRun(t) == k
    requires (t[k] == 'h' || t[k] == 'm') && t[k + 1] == ' '
    ensures AllDigits(t[..k])
    ensures ParseDuration(t) == AddField(DigitsValue(t[..k]) * UnitSeconds(t[k]), ParseDuration(t[k + 2..]))
  {
  }

  lemma ParseField(ds: string, u: char, rest: string)
    requires |ds| > 0 && AllDigits(ds)
    requires u == 'h' || u == 'm'
    ensures ParseDuration(ds + [u, ' '] + rest) == AddField(DigitsValue(ds) * UnitSeconds(u), ParseDuration(rest))
  {
    var tail := [u, ' '] + rest;
    var t := ds + tail;
    assert ds + [u, ' '] + rest == t;
    DigitRunOf(ds, tail);
    assert t[..|ds|] == ds;
    assert t[|ds| + 2..] == rest;
    ParseStep(t, |ds|);
  }

  lemma RoundTripHours(c: Clock)
    requires c.minutes < 60 && c.seconds < 60 && c.hours > 0
    ensures ParseDuration(Render(c)) == Some(c.hours * 3600 + c.minutes * 60 + c.seconds)
  {
    var tail := Pad2(c.seconds) + "s";
    var mid := Pad2(c.minutes) + "m " + tail;
    ParseLastField(Pad2(c.seconds));
    ParseField(Pad2(c.minutes), 'm', tail);
    ParseField(NatToString(c.hours), 'h', mid);
  }

  lemma RoundTripMinutes(c: Clock)
    requires c.minutes < 60 && c.seconds < 60 && c.hours == 0 && c.minutes > 0
    ensures ParseDuration(Render(c)) == Some(c.minutes * 60 + c.seconds)
  {
    ParseLastField(Pad2(c.seconds));
    ParseField(NatToString(c.minutes), 'm', Pad2(c.seconds) + "s");
  }

  /** The rendering of any clock reading reads back as the seconds it stands for. */
  lemma RenderRoundTrip(c: Clock)
    requires c.minutes < 60 && c.seconds < 60
    ensures ParseDuration(Render(c)) == Some(c.hours * 3600 + c.minutes * 60 + c.seconds)
  {
    if c.hours > 0 {
      RoundTripHours(c);
    } else if c.minutes > 0 {
      RoundTripMinutes(c);
    } else {
      ParseLastField(NatToString(c.seconds));
    }
  }

  /** The round trip: the formatted string reads back as the whole seconds. */
  lemma FormatClockRoundTrip(n: nat)
    ensures ParseDuration(FormatClock(n)) == Some(n)
  {
    RenderRoundTrip(Split(n));
  }

  /** A duration of zero or less is written "0s". */
  lemma FmtDurationNonPositive(secs: real)
    ensures secs <= 0.0 ==> FmtDuration(secs) == "0s"
  {
    if secs <= 0.0 {
      assert Split(WholeSeconds(secs)) == Clock(0, 0, 0);
      assert NatToString(0) == "0";
    }
  }

  /** fmt_duration's promise: clamp, truncate, then a faithful h/m/s rendering. */
  lemma FmtDurationRoundTrip(secs: real)
    ensures ParseDuration(FmtDuration(secs)) == Some(WholeSeconds(secs))
  {
    FormatClockRoundTrip(WholeSeconds(secs));
  }

  /** Which of the three shapes is produced: hours appear exactly from 3600 s, minutes from 60 s. */
  lemma FormatClockShape(n: nat)
    ensures var r := FormatClock(n);
      && ('h' in r <==> n >= 3600)
      && ('m' in r <==> n >= 60)
      && r[|r| - 1] == 's'
  {
    var c := Split(n);
    var r := FormatClock(n);
    assert forall d: string :: AllDigits(d) ==> 'h' !in d && 'm' !in d;
    if c.hours > 0 {
      assert r[|NatToString(c.hours)|] == 'h';
      assert r[|NatToString(c.hours)| + 4] == 'm';
    } else if c.minutes > 0 {
      assert r[|NatToString(c.minutes)|] == 'm';
    }
  }
}
