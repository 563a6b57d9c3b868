/** The per-sample transition of the shake detector as a pure function on the
    session state: classify the motion sample, latch the sensor mode, filter
    gravity on the gravity-included branch, and fire a debounced detection
    when the compensated vertical acceleration is strictly above the
    threshold. `Session` in session.dfy runs the same transition in place;
    the lemmas here state what it guarantees, one sample at a time and over
    whole runs of samples and cool-down expiries. */
module Detector {
  import opened LowPass
  import opened TimeText

  datatype Option<T> = None | Some(value: T)

  /** The latched sensor mode: not yet known, gravity-excluded (`A`) or
      gravity-included (`G`). */
  datatype Mode = Unknown | A | G

  /** One motion event as delivered by the device: the vertical component of
      `acceleration` and of `accelerationIncludingGravity`, each present only
      when the device supplies it as a number. */
  datatype Motion = Motion(acceleration: Option<real>, includingGravity: Option<real>)

  /** What a sample is used as. */
  datatype Reading = Excluded(raw: real) | Included(raw: real) | Unavailable

  /** Wall-clock time of a detection, as the device clock reports it. */
  datatype Clock = Clock(hours: nat, minutes: nat, seconds: nat)

  /** One detection: the clock reading, compensated value, raw value and
      latched mode. The page prints the clock reading as `Stamp(time)`. */
  datatype LogEntry = LogEntry(time: Clock, value: real, raw: real, mode: Mode)

  /** The session state: gravity estimate, latched mode, cool-down flag and
      the detection log, newest entry first. */
  datatype State = State(gravityZ: real, mode: Mode, isDetecting: bool, log: seq<LogEntry>)

  /** What processing a sample reports to the display: either the sensor
      data is unavailable, or the compensated value and whether it fired. */
  datatype Outcome = SensorUnavailable | Shown(value: real, detected: bool)

  /** The two entry points: a motion sample (with the threshold in force and
      the clock when it arrives) and the end of the one-second cool-down. */
  datatype Event = Sample(motion: Motion, threshold: real, now: Clock) | CooldownElapsed

  const Initial: State := State(0.0, Unknown, false, [])

  /** The gravity-excluded field wins whenever it is present; the
      gravity-included field is used only without it; a sample with neither
      is unavailable. */
  function Classify(m: Motion): (r: Reading)
    ensures r.Excluded? <==> m.acceleration.Some?
    ensures r.Included? <==> m.acceleration.None? && m.includingGravity.Some?
    ensures r.Unavailable? <==> m.acceleration.None? && m.includingGravity.None?
    ensures r.Excluded? ==> r.raw == m.acceleration.value
    ensures r.Included? ==> r.raw == m.includingGravity.value
  {
    match m.acceleration
    case Some(z) => Excluded(z)
    case None =>
      match m.includingGravity
      case Some(z) => Included(z)
      case None => Unavailable
  }

  /** The mode a usable reading stands for. */
  function ModeOf(r: Reading): Mode
  {
    match r
    case Excluded(_) => A
    case Included(_) => G
    case Unavailable => Unknown
  }

  /** The latch: an unknown mode takes the observed one; a known mode stays. */
  function Latch(current: Mode, observed: Mode): (r: Mode)
    ensures current != Unknown ==> r == current
    ensures current == Unknown ==> r == observed
  {
    if current == Unknown then observed else current
  }

  /** The `HH:MM:SS` text of a detection time. */
  function Stamp(now: Clock): string
  {
    TimeString(now.hours, now.minutes, now.seconds)
  }

  /** Threshold test with debounce, on a state whose mode and gravity
      estimate are already updated. */
  function Detect(s: State, z: real, raw: real, threshold: real, now: Clock): (r: (State, Outcome))
    ensures r.1 == Shown(z, z > threshold && !s.isDetecting)
    ensures r.0.gravityZ == s.gravityZ && r.0.mode == s.mode
    ensures r.1.detected ==> r.0.isDetecting && r.0.log == [LogEntry(now, z, raw, s.mode)] + s.log
    ensures !r.1.detected ==> r.0 == s
  {
    if z > threshold && !s.isDetecting then
      (s.(isDetecting := true, log := [LogEntry(now, z, raw, s.mode)] + s.log), Shown(z, true))
    else
      (s, Shown(z, false))
  }

  /** Processing one motion sample: the new state and what is displayed.
      Only an unusable sample is reported unavailable, and it changes
      nothing; otherwise the mode is latched and the log either stays or
      gains exactly one entry in front. The lemmas below state the rest. */
  function Process(s: State, m: Motion, threshold: real, now: Clock): (r: (State, Outcome))
    ensures r.1.SensorUnavailable? <==> Classify(m).Unavailable?
    ensures r.1.SensorUnavailable? ==> r.0 == s
    ensures r.0.mode == Latch(s.mode, ModeOf(Classify(m)))
    ensures r.0.log == s.log || (|r.0.log| == |s.log| + 1 && r.0.log[1..] == s.log)
  {
    match Classify(m)
    case Unavailable => (s, SensorUnavailable)
    case Excluded(raw) =>
      Detect(s.(mode := Latch(s.mode, A)), raw, raw, threshold, now)
    case Included(raw) =>
      var g := Filter(s.gravityZ, raw);
      Detect(s.(mode := Latch(s.mode, G), gravityZ := g), raw - g, raw, threshold, now)
  }

  /** The cool-down timer callback: only the flag is cleared. */
  function Expire(s: State): (r: State)
    ensures !r.isDetecting
    ensures r.gravityZ == s.gravityZ && r.mode == s.mode && r.log == s.log
  {
    s.(isDetecting := false)
  }

  function Apply(s: State, e: Event): State
  {
    match e
    case Sample(m, threshold, now) => Process(s, m, threshold, now).0
    case CooldownElapsed => Expire(s)
  }

  /** The state after a sequence of events, in order. */
  function Run(s: State, es: seq<Event>): State
    decreases |es|
  {
    if es == [] then s else Run(Apply(s, es[0]), es[1..])
  }

  /** The mode of the first sample in `es` that carries a usable field. */
  function FirstMode(es: seq<Event>): Mode
    decreases |es|
  {
    if es == [] then Unknown
    else if es[0].Sample? && !Classify(es[0].motion).Unavailable? then ModeOf(Classify(es[0].motion))
    else FirstMode(es[1..])
  }

  /** Number of cool-down expiries in `es`. */
  function Expiries(es: seq<Event>): nat
    decreases |es|
  {
    if es == [] then 0 else (if es[0].CooldownElapsed? then 1 else 0) + Expiries(es[1..])
  }

  // ---------------------------------------------------------------------
  // One sample at a time

  /** A sample with neither field is skipped: nothing in the state changes. */
  lemma UnavailableSkips(s: State, threshold: real, now: Clock)
    ensures Process(s, Motion(None, None), threshold, now) == (s, SensorUnavailable)
  {
  }

  /** When the gravity-excluded field is present it is used, whatever the
      other field holds: the value is the raw reading, the gravity estimate is
      untouched, and an unknown mode latches to `A`. */
  lemma ExcludedPassesThrough(s: State, x: real, other: Option<real>, threshold: real, now: Clock)
    ensures var (t, out) := Process(s, Motion(Some(x), other), threshold, now);
      out.Shown? && out.value == x &&
      t.gravityZ == s.gravityZ &&
      t.mode == (if s.mode == Unknown then A else s.mode)
  {
  }

  /** On the gravity-included branch the estimate becomes 0.8 g + 0.2 x and
      the value is x minus the new estimate, that is 0.8 (x - g); this holds
      whatever mode is latched, and an unknown mode latches to `G`. */
  lemma IncludedFilters(s: State, x: real, threshold: real, now: Clock)
    ensures var (t, out) := Process(s, Motion(None, Some(x)), threshold, now);
      t.gravityZ == 0.8 * s.gravityZ + 0.2 * x &&
      out.Shown? && out.value == x - t.gravityZ && out.value == 0.8 * (x - s.gravityZ) &&
      t.mode == (if s.mode == Unknown then G else s.mode)
  {
  }

  /** A usable sample fires exactly when its value is strictly above the
      threshold and no cool-down is running. Firing starts the cool-down and
      puts one entry, with the time, value, raw reading and latched mode, in
      front of the unchanged older entries; otherwise the flag and the log
      stay as they were. */
  lemma DetectionRule(s: State, m: Motion, threshold: real, now: Clock)
    requires !Classify(m).Unavailable?
    ensures var (t, out) := Process(s, m, threshold, now);
      out.Shown? &&
      (out.detected <==> out.value > threshold && !s.isDetecting) &&
      (out.detected ==>
        t.isDetecting &&
        t.log == [LogEntry(now, out.value, Classify(m).raw, t.mode)] + s.log) &&
      (!out.detected ==> t.isDetecting == s.isDetecting && t.log == s.log)
  {
  }

  /** A value equal to the threshold never fires. */
  lemma ThresholdIsStrict(s: State, m: Motion, threshold: real, now: Clock)
    requires !Classify(m).Unavailable?
    requires Process(s, m, threshold, now).1.value == threshold
    ensures !Process(s, m, threshold, now).1.detected
    ensures Process(s, m, threshold, now).0.log == s.log
  {
  }

  /** During a cool-down no sample adds to the log, whatever its value. */
  lemma CooldownSuppresses(s: State, m: Motion, threshold: real, now: Clock)
    requires s.isDetecting
    ensures Process(s, m, threshold, now).0.isDetecting
    ensures Process(s, m, threshold, now).0.log == s.log
  {
  }

  // ---------------------------------------------------------------------
  // Whole runs

  /** The mode latch: a known mode never changes again, and an unknown one
      becomes the mode of the first usable sample (or stays unknown). */
  lemma {:induction false} RunMode(s: State, es: seq<Event>)
    ensures Run(s, es).mode == Latch(s.mode, FirstMode(es))
    decreases |es|
  {
    if es != [] {
      RunMode(Apply(s, es[0]), es[1..]);
    }
  }

  /** `older` is what remains at the end of `log`. */
  predicate EndsWith(log: seq<LogEntry>, older: seq<LogEntry>)
  {
    |older| <= |log| && log[|log| - |older|..] == older
  }

  lemma EndsWithTransitive(a: seq<LogEntry>, b: seq<LogEntry>, c: seq<LogEntry>)
    requires EndsWith(a, b) && EndsWith(b, c)
    ensures EndsWith(a, c)
  {
    assert a[|a| - |b|..][|b| - |c|..] == a[|a| - |c|..];
  }

  /** One event either leaves the log alone or adds one entry in front. */
  lemma ApplyKeepsOlderEntries(s: State, e: Event)
    ensures EndsWith(Apply(s, e).log, s.log)
  {
    var t := Apply(s, e).log;
    assert t == s.log || t == [t[0]] + s.log;
    if t == s.log {
      assert t[|t| - |s.log|..] == t[0..];
    }
  }

  /** The log only grows at the front: the entries present before a run are
      still there afterwards, in the same order, at the end of the log. */
  lemma {:induction false} RunKeepsOlderEntries(s: State, es: seq<Event>)
    ensures |s.log| <= |Run(s, es).log|
    ensures Run(s, es).log[|Run(s, es).log| - |s.log|..] == s.log
    decreases |es|
  {
    if es == [] {
      assert Run(s, es).log[|s.log| - |s.log|..] == s.log;
    } else {
      var s1 := Apply(s, es[0]);
      ApplyKeepsOlderEntries(s, es[0]);
      RunKeepsOlderEntries(s1, es[1..]);
      EndsWithTransitive(Run(s1, es[1..]).log, s1.log, s.log);
    }
  }

  /** Potential form of the debounce: the log length plus one for an idle
      detector grows by at most one per cool-down expiry. */
  lemma {:induction false} RunDebouncePotential(s: State, es: seq<Event>)
    ensures |Run(s, es).log| + (if Run(s, es).isDetecting then 0 else 1)
         <= |s.log| + (if s.isDetecting then 0 else 1) + Expiries(es)
    decreases |es|
  {
    if es != [] {
      RunDebouncePotential(Apply(s, es[0]), es[1..]);
    }
  }

  /** Debounce: a run adds at most one log entry per cool-down expiry it
      contains, plus one if it starts outside a cool-down. In particular,
      without an expiry at most one detection fires, and none fires if a
      cool-down is already running. */
  lemma RunDebounce(s: State, es: seq<Event>)
    ensures |Run(s, es).log| - |s.log| <= Expiries(es) + (if s.isDetecting then 0 else 1)
  {
    RunDebouncePotential(s, es);
  }

  /** A run of samples none of which carries a usable field leaves the
      state exactly as it was. */
  lemma {:induction false} RunUnavailable(s: State, es: seq<Event>)
    requires forall i :: 0 <= i < |es| ==> es[i].Sample? && Classify(es[i].motion).Unavailable?
    ensures Run(s, es) == s
    decreases |es|
  {
    if es != [] {
      RunUnavailable(Apply(s, es[0]), es[1..]);
    }
  }

  /** A run of samples that all use the gravity-excluded field never moves
      the gravity estimate. */
  lemma {:induction false} RunExcludedKeepsGravity(s: State, es: seq<Event>)
    requires forall i :: 0 <= i < |es| ==> es[i].Sample? && Classify(es[i].motion).Excluded?
    ensures Run(s, es).gravityZ == s.gravityZ
    decreases |es|
  {
    if es != [] {
      RunExcludedKeepsGravity(Apply(s, es[0]), es[1..]);
    }
  }

  /** A run of gravity-included samples with the same raw value `r` filters
      the estimate `|es|` times toward `r`, whatever the thresholds, clock
      and latched mode. */
  lemma {:induction false} RunIncludedFilters(s: State, r: real, es: seq<Event>)
    requires forall i :: 0 <= i < |es| ==> es[i].Sample? && Classify(es[i].motion) == Included(r)
    ensures Run(s, es).gravityZ == Iterate(s.gravityZ, r, |es|)
    decreases |es|
  {
    if es != [] {
      var s1 := Apply(s, es[0]);
      assert s1.gravityZ == Filter(s.gravityZ, r) by {
        var (t, _) := Process(s, es[0].motion, es[0].threshold, es[0].now);
        assert t.gravityZ == Filter(s.gravityZ, r);
      }
      assert forall i :: 0 <= i < |es[1..]| ==> es[1..][i] == es[i + 1];
      RunIncludedFilters(s1, r, es[1..]);
    }
  }

  /** From a zero gravity estimate (as in a fresh session), `n`
      gravity-included samples with raw value `r` leave the estimate at
      `r * (1 - 0.8^n)`; LowPass.IterateApproaches shows that this moves
      monotonically toward `r`. */
  lemma RunIncludedClosedForm(s: State, r: real, es: seq<Event>)
    requires s.gravityZ == 0.0
    requires forall i :: 0 <= i < |es| ==> es[i].Sample? && Classify(es[i].motion) == Included(r)
    ensures Run(s, es).gravityZ == r * (1.0 - Pow(Alpha, |es|))
  {
    var n := |es|;
    RunIncludedFilters(s, r, es);
    FromRest(r, n);
    calc {
      Run(s, es).gravityZ;
      Iterate(s.gravityZ, r, n);
      { assert s.gravityZ == 0.0; }
      Iterate(0.0, r, n);
      r * (1.0 - Pow(Alpha, n));
    }
  }
}
