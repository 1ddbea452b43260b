/**
 * The study timer: a running flag, the clock reading at the last start, and the
 * accumulated elapsed time. The clock is an integer tick count passed in by the
 * caller wherever the source reads `time.time()`.
 */
module StudyTimer {

  datatype Timer = Timer(running: bool, startTime: int, elapsed: int)

  /** The session's initial timer. */
  const Idle := Timer(false, 0, 0)

  /** The Start button: always restamps the start time, whether or not it was running. */
  function Start(t: Timer, now: int): (r: Timer)
    ensures r.running && r.startTime == now && r.elapsed == t.elapsed
  {
    Timer(true, now, t.elapsed)
  }

  /** The Stop button: banks the running interval, or does nothing when stopped. */
  function Stop(t: Timer, now: int): (r: Timer)
    ensures !r.running
    ensures r.startTime == t.startTime
    ensures t.running ==> r.elapsed == t.elapsed + (now - t.startTime)
    ensures !t.running ==> r == t
  {
    if t.running then Timer(false, t.startTime, t.elapsed + (now - t.startTime)) else t
  }

  /**
   * The displayed total: the bank plus the live interval while running, which is
   * what a Stop pressed at that moment would bank.
   */
  function Read(t: Timer, now: int): (r: int)
    ensures r == Stop(t, now).elapsed
    ensures !t.running ==> r == t.elapsed
    ensures t.running && t.startTime <= now ==> r >= t.elapsed
  {
    if t.running then t.elapsed + (now - t.startTime) else t.elapsed
  }

  /** `int(elapsed // 60)`: floor division, which Dafny's `/` is for a positive divisor. */
  function Minutes(t: Timer, now: int): (m: int)
    ensures 60 * m <= Read(t, now) < 60 * (m + 1)
  {
    Read(t, now) / 60
  }

  /** Stopping does not change the displayed total at the moment of stopping. */
  lemma StopKeepsReading(t: Timer, now: int)
    ensures Read(Stop(t, now), now) == Read(t, now)
    ensures Read(Stop(t, now), now) == Stop(t, now).elapsed
  {
  }

  /** A start immediately followed by a stop banks exactly the interval between them. */
  lemma StartThenStop(t: Timer, a: int, b: int)
    ensures Stop(Start(t, a), b).elapsed == t.elapsed + (b - a)
  {
  }

  /**
   * Pressing Start while running discards the live interval: the displayed total
   * drops back to the bank whenever time has passed since the previous start.
   */
  lemma RestartDiscardsLiveInterval(t: Timer, now: int)
    requires t.running && t.startTime < now
    ensures Read(Start(t, now), now) == t.elapsed < Read(t, now)
  {
  }

  /** A button press with the clock reading at that moment. */
  datatype Press = StartAt(at: int) | StopAt(at: int)

  function Apply(t: Timer, p: Press): Timer {
    match p
    case StartAt(now) => Start(t, now)
    case StopAt(now) => Stop(t, now)
  }

  function Run(t: Timer, ps: seq<Press>): Timer
    decreases |ps|
  {
    if ps == [] then t else Run(Apply(t, ps[0]), ps[1..])
  }

  /** The clock never runs backwards: no press is earlier than `from`, and presses are in clock order. */
  ghost predicate ClockFrom(from: int, ps: seq<Press>) {
    (forall i :: 0 <= i < |ps| ==> from <= ps[i].at)
    && (forall i, j :: 0 <= i < j < |ps| ==> ps[i].at <= ps[j].at)
  }

  /**
   * With a clock that never runs backwards, the banked elapsed time never decreases,
   * whatever the sequence of Start and Stop presses.
   */
  lemma {:induction false} ElapsedNeverDecreases(t: Timer, ps: seq<Press>)
    requires t.running ==> ClockFrom(t.startTime, ps)
    requires ClockFrom(if ps == [] then 0 else ps[0].at, ps)
    ensures Run(t, ps).elapsed >= t.elapsed
    decreases |ps|
  {
    if ps != [] {
      var t' := Apply(t, ps[0]);
      var rest := ps[1..];
      assert t'.elapsed >= t.elapsed;
      if t'.running {
        assert t'.startTime == ps[0].at;
        assert forall i :: 0 <= i < |rest| ==> rest[i] == ps[i + 1];
      }
      assert forall i :: 0 <= i < |rest| ==> rest[i] == ps[i + 1];
      ElapsedNeverDecreases(t', rest);
    }
  }
}
