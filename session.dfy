/** The monitoring session as script.js keeps it: module-level variables
    (and the on-page log list) that the motion handler and the cool-down
    timer update in place; the threshold is passed in with each sample. Each
    method performs the same transition as the pure functions of Detector,
    so every lemma proved there holds of a session driven by these methods. */
module MotionSession {
  import opened LowPass
  import opened Detector

  class Session {
    var gravityZ: real
    var mode: Mode
    var isDetecting: bool
    var log: seq<LogEntry>

    /** The session's state as a value. */
    function Snapshot(): State
      reads this
    {
      State(gravityZ, mode, isDetecting, log)
    }

    /** A new session: zero gravity estimate, unknown mode, idle, empty log. */
    constructor ()
      ensures Snapshot() == Initial
    {
      gravityZ := 0.0;
      mode := Unknown;
      isDetecting := false;
      log := [];
    }

    /** The motion-event handler: classify the sample, latch the mode, update
        the gravity estimate on the gravity-included branch, and record a
        detection when the value is strictly above `threshold` outside a
        cool-down. */
    method HandleMotion(event: Motion, threshold: real, now: Clock) returns (outcome: Outcome)
      modifies this
      ensures (Snapshot(), outcome) == Process(old(Snapshot()), event, threshold, now)
      ensures outcome.SensorUnavailable? ==> Snapshot() == old(Snapshot())
      ensures outcome.Shown? && outcome.detected ==> isDetecting && log[1..] == old(log)
      ensures !(outcome.Shown? && outcome.detected) ==> isDetecting == old(isDetecting) && log == old(log)
    {
      var raw: real;
      var z: real;
      if event.acceleration.Some? {
        if mode == Unknown {
          mode := A;
        }
        raw := event.acceleration.value;
        z := raw;
      } else if event.includingGravity.Some? {
        if mode == Unknown {
          mode := G;
        }
        raw := event.includingGravity.value;
        gravityZ := Filter(gravityZ, raw);
        z := raw - gravityZ;
      } else {
        return SensorUnavailable;
      }
      var detected := z > threshold && !isDetecting;
      if detected {
        isDetecting := true;
        log := [LogEntry(now, z, raw, mode)] + log;
      }
      outcome := Shown(z, detected);
    }

    /** The cool-down timer callback: clear the flag, nothing else. */
    method ExpireCooldown()
      modifies this
      ensures Snapshot() == Expire(old(Snapshot()))
      ensures !isDetecting
      ensures gravityZ == old(gravityZ) && mode == old(mode) && log == old(log)
    {
      isDetecting := false;
    }
  }

  /** Gravity-excluded samples 0.2, 0.4, 1.6, 0.3 against threshold 1.5:
      exactly one detection, at the third sample, recording 1.6. */
  method ScenarioExcluded()
  {
    var s := new Session();
    var now := Clock(12, 0, 0);
    var o1 := s.HandleMotion(Motion(Some(0.2), None), 1.5, now);
    var o2 := s.HandleMotion(Motion(Some(0.4), None), 1.5, now);
    var o3 := s.HandleMotion(Motion(Some(1.6), None), 1.5, now);
    var o4 := s.HandleMotion(Motion(Some(0.3), None), 1.5, now);
    assert o1 == Shown(0.2, false) && o2 == Shown(0.4, false);
    assert o3 == Shown(1.6, true) && o4 == Shown(0.3, false);
    assert s.mode == A && s.gravityZ == 0.0;
    assert s.log == [LogEntry(now, 1.6, 1.6, A)];
  }

  /** Three gravity-included samples of 9.8 from rest: the estimate is
      9.8 * (1 - 0.8^3) = 4.7824 and the last value is 5.0176. */
  method ScenarioIncluded()
  {
    var s := new Session();
    var now := Clock(8, 30, 5);
    var o1 := s.HandleMotion(Motion(None, Some(9.8)), 100.0, now);
    var o2 := s.HandleMotion(Motion(None, Some(9.8)), 100.0, now);
    var o3 := s.HandleMotion(Motion(None, Some(9.8)), 100.0, now);
    assert s.gravityZ == 4.7824;
    assert o3 == Shown(5.0176, false);
    assert s.mode == G && s.log == [];
  }

  /** The threshold is read on every sample: a value of 0.8 does not fire at
      threshold 2.0 and fires at threshold 0.5. */
  method ScenarioThresholdChange()
  {
    var s := new Session();
    var now := Clock(23, 59, 59);
    var o1 := s.HandleMotion(Motion(Some(0.8), None), 2.0, now);
    assert o1 == Shown(0.8, false) && s.log == [];
    var o2 := s.HandleMotion(Motion(Some(0.8), None), 0.5, now);
    assert o2 == Shown(0.8, true) && |s.log| == 1;
  }

  /** Two samples without usable data: both are reported unavailable and
      nothing changes. */
  method ScenarioUnavailable()
  {
    var s := new Session();
    var now := Clock(0, 0, 0);
    var o1 := s.HandleMotion(Motion(None, None), 1.0, now);
    var o2 := s.HandleMotion(Motion(None, None), 1.0, now);
    assert o1 == SensorUnavailable && o2 == SensorUnavailable;
    assert s.Snapshot() == Initial;
  }

  /** A crossing during the cool-down is ignored; after the expiry the next
      crossing is recorded in front of the first. */
  method ScenarioCooldown()
  {
    var s := new Session();
    var o1 := s.HandleMotion(Motion(Some(3.0), None), 1.0, Clock(10, 0, 0));
    var o2 := s.HandleMotion(Motion(Some(4.0), None), 1.0, Clock(10, 0, 0));
    assert o1 == Shown(3.0, true) && o2 == Shown(4.0, false);
    s.ExpireCooldown();
    var o3 := s.HandleMotion(Motion(None, Some(5.0)), 1.0, Clock(10, 0, 2));
    assert o3 == Shown(4.0, true);
    assert s.mode == A;
    assert s.log == [LogEntry(Clock(10, 0, 2), 4.0, 5.0, A), LogEntry(Clock(10, 0, 0), 3.0, 3.0, A)];
  }
}
