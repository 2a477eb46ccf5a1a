/** The timed sampling loop of scripts/production_internal_validation_active_soak.py and its
    verdict. */
module Soak {
  import opened Basics

  type Time = real

  /** The fields of a readiness receipt that must not change. */
  type Fingerprint = map<string, string>

  const FIELDS := [
    "source_revision", "migration_revisions", "identity", "entitlement", "totals", "lifecycle", "containers",
    "service_images", "operational_ready"]

  datatype Reading = Ready(fingerprint: Fingerprint) | Blocked(reason: string)

  /** The length of the window, the pause between samples, and the limit for one sample. */
  datatype Settings = Settings(duration: Time, interval: Time, timeout: Time)

  predicate Permitted(s: Settings) {
    1800.0 <= s.duration <= 3600.0 && 30.0 <= s.interval <= 300.0 && 10.0 <= s.timeout <= 120.0
  }

  function Field(f: Fingerprint, name: string): Option<string> {
    if name in f then Some(f[name]) else None
  }

  predicate Same(a: Fingerprint, b: Fingerprint) {
    forall name | name in FIELDS :: Field(a, name) == Field(b, name)
  }

  function Ceil(x: real): int {
    if x.Floor as real == x then x.Floor else x.Floor + 1
  }

  function MinimumSamples(s: Settings): int
    requires Permitted(s)
  {
    var least := Ceil(s.duration / (s.interval + s.timeout));
    if least < 2 then 2 else least
  }

  function MaximumSamples(s: Settings): int
    requires Permitted(s)
  {
    Ceil(s.duration / s.interval) + 1
  }

  ghost function Steps(n: nat, step: Time): Time {
    if n == 0 then 0.0 else Steps(n - 1, step) + step
  }

  lemma {:induction false} StepsMultiply(n: nat, step: Time)
    ensures Steps(n, step) == n as real * step
  {
    if n > 0 {
      StepsMultiply(n - 1, step);
      assert n as real * step == (n - 1) as real * step + step;
    }
  }

  /** The quotient rounded up is the least number of steps that covers the total. */
  lemma CeilIsLeast(n: nat, step: Time, total: Time)
    requires step > 0.0
    ensures Steps(n, step) >= total <==> n >= Ceil(total / step)
  {
    StepsMultiply(n, step);
    var q := total / step;
    assert q * step == total;
    if n as real >= q {
      assert (n as real - q) * step >= 0.0;
    } else {
      assert (q - n as real) * step > 0.0;
    }
  }

  /** At least two samples are required, and at least as many as cover the window when each takes an
      interval and the time allowed for it. */
  lemma MinimumIs(s: Settings, n: nat)
    requires Permitted(s)
    ensures n >= MinimumSamples(s) <==> n >= 2 && n as real * (s.interval + s.timeout) >= s.duration
  {
    CeilIsLeast(n, s.interval + s.timeout, s.duration);
    StepsMultiply(n, s.interval + s.timeout);
  }

  /** At most one sample more is taken than intervals cover the window. */
  lemma MaximumIs(s: Settings, n: nat)
    requires Permitted(s)
    ensures n + 1 >= MaximumSamples(s) <==> n as real * s.interval >= s.duration
  {
    CeilIsLeast(n, s.interval, s.duration);
    StepsMultiply(n, s.interval);
  }

  /** The field is in only one of the fingerprints, or has another value in each. */
  predicate Changed(a: Fingerprint, b: Fingerprint, name: string) {
    (name in a) != (name in b) || (name in a && name in b && a[name] != b[name])
  }

  /** Names exactly the changed fields. */
  method CompareFingerprints(baseline: Fingerprint, current: Fingerprint) returns (blockers: seq<string>)
    ensures blockers == [] <==> Same(baseline, current)
    ensures forall b | b in blockers :: b in FIELDS
    ensures forall name | name in FIELDS :: name in blockers <==> Changed(baseline, current, name)
  {
    blockers := [];
    for i := 0 to |FIELDS|
      invariant blockers == [] <==> forall k | 0 <= k < i :: Field(baseline, FIELDS[k]) == Field(current, FIELDS[k])
      invariant forall name :: name in blockers <==>
                  exists k | 0 <= k < i :: FIELDS[k] == name && Changed(baseline, current, name)
    {
      if Field(current, FIELDS[i]) != Field(baseline, FIELDS[i]) {
        blockers := blockers + [FIELDS[i]];
      }
    }
  }

  /** What the world does during the loop: the readings, how long each takes, and the time lost
      before the clock is checked, until the pause begins, and by sleeping longer. */
  datatype World = World(
    reading: nat -> Reading, spent: nat -> Time, before: nat -> Time, after: nat -> Time, over: nat -> Time)

  ghost predicate TimeMovesOn(w: World, s: Settings) {
    && (forall i: nat :: 0.0 <= w.spent(i) <= s.timeout)
    && (forall i: nat :: 0.0 <= w.before(i)) && (forall i: nat :: 0.0 <= w.after(i))
    && (forall i: nat :: 0.0 <= w.over(i))
  }

  /** The time lost in the first samples, apart from the readings and the planned pauses. */
  ghost function Lost(w: World, n: nat): Time {
    if n == 0 then 0.0 else Lost(w, n - 1) + w.before(n - 1) + w.after(n - 1) + w.over(n - 1)
  }

  /** Sample `i` is ready and shows the first fingerprint. */
  predicate Steady(w: World, i: nat) {
    w.reading(0).Ready? && w.reading(i).Ready? && Same(w.reading(0).fingerprint, w.reading(i).fingerprint)
  }

  /** The clock when the sample with this number begins. */
  ghost predicate OnTime(w: World, s: Settings, n: nat, now: Time) {
    && 0.0 <= now <= Steps(n, s.interval + s.timeout) + Lost(w, n)
    && (now >= s.duration || now >= Steps(n, s.interval))
    && (n > 0 ==> Steps(n - 1, s.interval) < s.duration)
  }

  function Pause(s: Settings, now: Time): Time {
    var remaining := if now < s.duration then s.duration - now else 0.0;
    if s.interval < remaining then s.interval else remaining
  }

  /** A pause is as long as the interval, but never goes beyond the end of the window. */
  lemma PauseIs(s: Settings, now: Time)
    requires s.interval >= 0.0
    ensures var pause := Pause(s, now);
            && 0.0 <= pause <= s.interval && (pause > 0.0 ==> now + pause <= s.duration)
            && (pause < s.interval ==> now + pause >= s.duration)
  {
  }

  lemma StaysOnTime(w: World, s: Settings, n: nat, now: Time)
    requires Permitted(s) && TimeMovesOn(w, s) && OnTime(w, s, n, now) && now + w.spent(n) + w.before(n) < s.duration
    ensures var paused := now + w.spent(n) + w.before(n) + w.after(n);
            OnTime(w, s, n + 1, paused + Pause(s, paused) + w.over(n))
  {
  }

  lemma StepsCover(w: World, s: Settings, n: nat, now: Time)
    requires Permitted(s) && TimeMovesOn(w, s) && OnTime(w, s, n, now) && now + w.spent(n) + w.before(n) >= s.duration
    requires Lost(w, n + 1) <= s.interval
    ensures Steps(n + 1, s.interval + s.timeout) >= s.duration && n >= 1
  {
  }

  lemma MinimumCovered(s: Settings, n: nat)
    requires Permitted(s) && Steps(n, s.interval + s.timeout) >= s.duration && n >= 2
    ensures n >= MinimumSamples(s)
  {
    CeilIsLeast(n, s.interval + s.timeout, s.duration);
  }

  lemma EnoughSamples(w: World, s: Settings, n: nat, now: Time)
    requires Permitted(s) && TimeMovesOn(w, s) && OnTime(w, s, n, now) && now + w.spent(n) + w.before(n) >= s.duration
    requires Lost(w, n + 1) <= s.interval
    ensures n + 1 >= MinimumSamples(s)
  {
    StepsCover(w, s, n, now);
    MinimumCovered(s, n + 1);
  }

  lemma NotTooMany(w: World, s: Settings, n: nat, now: Time)
    requires Permitted(s) && OnTime(w, s, n, now)
    ensures n + 1 <= MaximumSamples(s)
  {
    if n > 0 {
      CeilIsLeast(n - 1, s.interval, s.duration);
    } else {
      CeilIsLeast(0, s.interval, s.duration);
    }
  }

  datatype Receipt = Receipt(passed: bool, samples: nat, elapsed: Time, blockers: seq<string>)

  /** The loop: samples until the deadline or the first blocker. */
  method Sample(s: Settings, w: World) returns (samples: nat, now: Time, blockers: seq<string>)
    requires Permitted(s) && TimeMovesOn(w, s)
    ensures samples <= MaximumSamples(s)
    ensures blockers == [] ==> now >= s.duration && forall i: nat | i < samples :: Steady(w, i)
    ensures blockers == [] && Lost(w, samples) <= s.interval ==> samples >= MinimumSamples(s)
    ensures blockers != [] ==> exists i: nat | i <= samples :: !Steady(w, i)
  {
    samples, now, blockers := 0, 0.0, [];
    var baseline: Option<Fingerprint> := None;
    while true
      invariant OnTime(w, s, samples, now) && blockers == []
      invariant forall i: nat | i < samples :: Steady(w, i)
      invariant if samples == 0 then baseline.None?
                else w.reading(0).Ready? && baseline == Some(w.reading(0).fingerprint)
      decreases MaximumSamples(s) - samples
    {
      NotTooMany(w, s, samples, now);
      ghost var start := now;
      var reading := w.reading(samples);
      if reading.Blocked? {
        assert !Steady(w, samples);
        return samples, now, [reading.reason];
      }
      if baseline.None? {
        baseline := Some(reading.fingerprint);
      } else {
        blockers := CompareFingerprints(baseline.value, reading.fingerprint);
      }
      assert blockers == [] <==> Steady(w, samples);
      now := now + w.spent(samples) + w.before(samples);
      samples := samples + 1;
      if blockers != [] || now >= s.duration {
        if blockers == [] && Lost(w, samples) <= s.interval {
          EnoughSamples(w, s, samples - 1, start);
        }
        return;
      }
      StaysOnTime(w, s, samples - 1, start);
      now := now + w.after(samples - 1);
      now := now + Pause(s, now) + w.over(samples - 1);
    }
  }

  /** The whole soak.  A pass means that every sample was ready and unchanged; and unless more than
      one interval is lost, nothing but such a sample prevents a pass. */
  method RunSoak(s: Settings, w: World) returns (r: Receipt)
    requires Permitted(s) ==> TimeMovesOn(w, s)
    ensures r.passed <==> r.blockers == []
    ensures !Permitted(s) ==> !r.passed && r.samples == 0
    ensures Permitted(s) ==> r.samples <= MaximumSamples(s)
    ensures r.passed ==>
              && Permitted(s) && r.samples >= MinimumSamples(s) && r.elapsed >= s.duration
              && forall i: nat | i < r.samples :: Steady(w, i)
    ensures r.passed ==>
              && 1800.0 <= s.duration <= 3600.0 && 30.0 <= s.interval <= 300.0 && 10.0 <= s.timeout <= 120.0
              && r.samples >= 2 && r.samples as real * (s.interval + s.timeout) >= s.duration
    ensures Permitted(s) && !r.passed && Lost(w, r.samples) <= s.interval ==>
              exists i: nat | i <= r.samples :: !Steady(w, i)
  {
    var samples, now, blockers := 0, 0.0, ["settings"];
    if Permitted(s) {
      samples, now, blockers := Sample(s, w);
      if now < s.duration && blockers == [] {
        blockers := ["duration"];
      }
      MinimumIs(s, samples);
      if samples < MinimumSamples(s) && blockers == [] {
        blockers := ["too few samples"];
      }
    }
    r := Receipt(blockers == [], samples, now, blockers);
  }
}
