/**
 * The keyboard driver of the variable-frequency motor controller
 * (Source/DeviceDrivers/Keyboard.c with the constants of
 * Source/DeviceDrivers/Keyboard.h).
 *
 * Three reads are offered over a five-bit key register: an undebounced masked
 * read, a one-shot debounce filter (one event per press) and an auto-repeat
 * filter whose repeat rate accelerates along a fixed chain of velocity steps.
 * The register value is a parameter of every read.
 *
 * Each filter is specified by a pure step function on a record of its static
 * state; the class Keyboard at the end keeps that state in fields and its
 * methods are proved to perform exactly those steps.
 */
module KeyboardDriver {

  datatype Option<T> = None | Some(value: T)

  /** DEBOUNCE_BOUND: the debounce counters saturate here instead of overflowing. */
  const DebounceBound: nat := 2000000

  /** DEBOUNCE_VALUE of Source/DeviceDrivers/Keyboard.h. */
  const DebounceValue: nat := 8000

  /** DEBOUNCE_VALUE of the draft header Keyboard.h at the repository root. */
  const DraftDebounceValue: nat := 10000

  const KeyOne: bv32 := 0x01
  const KeyTwo: bv32 := 0x02
  const KeyThree: bv32 := 0x04
  const KeyFour: bv32 := 0x08
  /** KEY_FIVE exactly as the header writes it. */
  const KeyFiveAsWritten: bv32 := 0x16
  /** The fifth key line, PE4. */
  const KeyFive: bv32 := 0x10
  const EnabledKeysMask: bv32 := 0x1F

  /** Values of an `unsigned short` (timesToExecute, amountOfExecution) are taken modulo this. */
  const UShortModulus: nat := 0x1_0000

  /** The five key constants overlap: the header's KEY_FIVE shares bits with KEY_TWO and KEY_THREE. */
  lemma KeyFiveAsWrittenOverlaps()
    ensures KeyFiveAsWritten & KeyTwo == KeyTwo && KeyFiveAsWritten & KeyThree == KeyThree
    ensures KeyFiveAsWritten & !EnabledKeysMask == 0
  {
  }

  /** With KEY_FIVE = 0x10 the five keys are distinct single lines that together make up the mask. */
  lemma KeysPartitionMask()
    ensures KeyOne | KeyTwo | KeyThree | KeyFour | KeyFive == EnabledKeysMask
    ensures KeyOne & KeyTwo == 0 && KeyOne & KeyThree == 0 && KeyOne & KeyFour == 0 && KeyOne & KeyFive == 0
    ensures KeyTwo & KeyThree == 0 && KeyTwo & KeyFour == 0 && KeyTwo & KeyFive == 0
    ensures KeyThree & KeyFour == 0 && KeyThree & KeyFive == 0 && KeyFour & KeyFive == 0
  {
  }

  /**
   * Keyboard_InNoDebounce: the key lines of the port register, without
   * debouncing. The result holds exactly the enabled bits of the register:
   * nothing outside ENABLED_KEYS_MASK, and together with the register's other
   * bits it gives back the register.
   */
  function InNoDebounce(portData: bv32): (keys: bv32)
    ensures keys <= EnabledKeysMask
    ensures keys & !EnabledKeysMask == 0
    ensures keys | (portData & !EnabledKeysMask) == portData
  {
    portData & EnabledKeysMask
  }

  /** Masking twice is masking once. */
  lemma InNoDebounceIdempotent(portData: bv32)
    ensures InNoDebounce(InNoDebounce(portData)) == InNoDebounce(portData)
  {
  }

  // ---------------------------------------------------------------------------
  // The velocity chain
  // ---------------------------------------------------------------------------

  /** Position of a step in Velocities. */
  type VelocityIndex = i: nat | i < 5

  /**
   * `struct velocity`: how many threshold crossings to wait before an event,
   * how many events to emit at this speed, the events emitted so far, and the
   * position of the next (faster) step.
   */
  datatype Velocity = Velocity(timeToWait: nat, timesToExecute: nat, amountOfExecution: nat, next: Option<VelocityIndex>)

  /** The templates velocity0 .. velocity4; velocity4 has no next step. */
  const Velocities: seq<Velocity> := [
    Velocity(0, 1, 0, Some(1)),
    Velocity(20, 1, 0, Some(2)),
    Velocity(7, 5, 0, Some(3)),
    Velocity(2, 10, 0, Some(4)),
    Velocity(0, 0, 0, None)
  ]

  const LastVelocity: VelocityIndex := 4

  /** The chain is a single forward path: each step but the last links to its successor. */
  lemma VelocityChainIsLinear()
    ensures |Velocities| == LastVelocity + 1
    ensures forall i: VelocityIndex :: Velocities[i].next == if i < LastVelocity then Some(i + 1) else None
    ensures forall i: VelocityIndex :: Velocities[i].amountOfExecution == 0
    ensures forall i: VelocityIndex :: Velocities[i].next.Some? ==> 1 <= Velocities[i].timesToExecute < UShortModulus
  {
  }

  /** The longest wait of any step of a chain. */
  function MaxTimeToWait(steps: seq<Velocity>): (m: nat)
    ensures forall i :: 0 <= i < |steps| ==> steps[i].timeToWait <= m
    ensures |steps| > 0 ==> exists i :: 0 <= i < |steps| && steps[i].timeToWait == m
  {
    if steps == [] then 0
    else
      var rest := MaxTimeToWait(steps[1..]);
      assert forall i :: 1 <= i < |steps| ==> steps[i] == steps[1..][i - 1];
      if steps[0].timeToWait >= rest then steps[0].timeToWait else rest
  }

  /** The longest wait of the chain, velocity1's. */
  const MaxWait: nat := 20

  lemma MaxWaitIsLongest()
    ensures MaxWait == MaxTimeToWait(Velocities)
  {
  }

  // ---------------------------------------------------------------------------
  // Common helpers
  // ---------------------------------------------------------------------------

  function Repeat<T>(x: T, n: nat): (s: seq<T>)
    ensures |s| == n && forall i :: 0 <= i < n ==> s[i] == x
  {
    seq(n, _ => x)
  }

  lemma RepeatAppend<T>(x: T, m: nat, n: nat)
    ensures Repeat(x, m) + Repeat(x, n) == Repeat(x, m + n)
  {
    assert forall i :: 0 <= i < m + n ==> (Repeat(x, m) + Repeat(x, n))[i] == x;
  }

  // ---------------------------------------------------------------------------
  // Keyboard_In: the one-shot filter
  // ---------------------------------------------------------------------------

  /** The static state of Keyboard_In. */
  datatype OneShot = OneShot(debounceCounter: nat, lastStatus: bv32, outputed: bool)

  /** The state after one call and the keys it returns. */
  datatype OneShotRead = OneShotRead(state: OneShot, keys: bv32)

  /** The static initialisers. */
  const OneShotStart: OneShot := OneShot(0, 0, false)

  /**
   * What Keyboard_In keeps between calls: the counter stays within the
   * threshold and the saturation bound, and a locked filter has a zero counter.
   */
  ghost predicate OneShotInvariant(s: OneShot, threshold: nat)
  {
    && s.debounceCounter <= threshold
    && s.debounceCounter <= DebounceBound
    && (s.outputed ==> s.debounceCounter == 0)
  }

  /**
   * The comparison of the sampled keys with the previous sample: the counter
   * grows by one exactly when the sample repeats, the filter is unlocked and
   * the counter is below the saturation bound; the lock is released exactly
   * when a locked filter sees a different sample; the sample is remembered.
   */
  function OneShotCompare(s: OneShot, status: bv32): (c: OneShot)
    ensures c.lastStatus == status
    ensures c.debounceCounter == s.debounceCounter || c.debounceCounter == s.debounceCounter + 1
    ensures c.debounceCounter == s.debounceCounter + 1
        <==> status == s.lastStatus && !s.outputed && s.debounceCounter < DebounceBound
    ensures s.debounceCounter <= DebounceBound ==> c.debounceCounter <= DebounceBound
    ensures c.outputed <==> s.outputed && status == s.lastStatus
  {
    var c :=
      if status == s.lastStatus && !s.outputed then
        if s.debounceCounter < DebounceBound then s.(debounceCounter := s.debounceCounter + 1) else s
      else if status != s.lastStatus && s.outputed then
        s.(outputed := false)
      else
        s;
    c.(lastStatus := status)
  }

  /**
   * One call of Keyboard_In on the masked sample `status`. It returns the
   * sample exactly when the compared counter exceeds the threshold, and then
   * locks and clears the counter; otherwise it returns no key and keeps the
   * compared state. The counter never ends above the threshold.
   */
  function OneShotStep(s: OneShot, status: bv32, threshold: nat): (r: OneShotRead)
    ensures r.state.lastStatus == status
    ensures r.state.debounceCounter <= threshold
    ensures OneShotCompare(s, status).debounceCounter > threshold
        ==> r.keys == status && r.state.outputed && r.state.debounceCounter == 0
    ensures OneShotCompare(s, status).debounceCounter <= threshold
        ==> r.keys == 0 && r.state == OneShotCompare(s, status)
    ensures OneShotInvariant(s, threshold) ==> OneShotInvariant(r.state, threshold)
  {
    var c := OneShotCompare(s, status);
    if c.debounceCounter > threshold then
      OneShotRead(c.(outputed := true, debounceCounter := 0), status)
    else
      OneShotRead(c, 0)
  }

  /** The final state and the returned keys of a run of calls. */
  datatype OneShotTrace = OneShotTrace(final: OneShot, keys: seq<bv32>)

  function RunOneShot(s: OneShot, statuses: seq<bv32>, threshold: nat): (t: OneShotTrace)
    ensures |t.keys| == |statuses|
    decreases |statuses|
  {
    if statuses == [] then OneShotTrace(s, [])
    else
      var r := OneShotStep(s, statuses[0], threshold);
      var rest := RunOneShot(r.state, statuses[1..], threshold);
      OneShotTrace(rest.final, [r.keys] + rest.keys)
  }

  /** A locked filter fed its last sample again and again never emits and does not change. */
  lemma {:induction false} LockedStaysSilent(s: OneShot, n: nat, threshold: nat)
    requires s.outputed && s.debounceCounter <= threshold
    ensures RunOneShot(s, Repeat(s.lastStatus, n), threshold) == OneShotTrace(s, Repeat(0, n))
    decreases n
  {
    if n > 0 {
      assert Repeat(s.lastStatus, n)[1..] == Repeat(s.lastStatus, n - 1);
      LockedStaysSilent(s, n - 1, threshold);
      assert [0 as bv32] + Repeat(0, n - 1) == Repeat(0, n);
    }
  }

  /**
   * An unlocked filter fed its last sample again and again emits it once,
   * on the call that takes the counter past the threshold, and never again;
   * afterwards it stays locked with a zero counter.
   */
  lemma {:induction false} HoldFiresOnce(s: OneShot, n: nat, threshold: nat)
    requires !s.outputed && s.debounceCounter <= threshold < DebounceBound
    ensures var t := RunOneShot(s, Repeat(s.lastStatus, n), threshold);
            var fireAt := threshold - s.debounceCounter;
            && (forall i :: 0 <= i < n ==> t.keys[i] == if i == fireAt then s.lastStatus else 0)
            && t.final == if n > fireAt then OneShot(0, s.lastStatus, true)
                          else s.(debounceCounter := s.debounceCounter + n)
    decreases n
  {
    if n > 0 {
      var k := s.lastStatus;
      assert Repeat(k, n)[1..] == Repeat(k, n - 1);
      var r := OneShotStep(s, k, threshold);
      var rest := RunOneShot(r.state, Repeat(k, n - 1), threshold);
      assert RunOneShot(s, Repeat(k, n), threshold) == OneShotTrace(rest.final, [r.keys] + rest.keys);
      if s.debounceCounter == threshold {
        assert r == OneShotRead(OneShot(0, k, true), k);
        LockedStaysSilent(r.state, n - 1, threshold);
      } else {
        assert r == OneShotRead(s.(debounceCounter := s.debounceCounter + 1), 0);
        HoldFiresOnce(r.state, n - 1, threshold);
      }
    }
  }

  /**
   * A press of a new key combination, starting from a filter with a zero
   * counter (at power-up or after an event): the first sample only notes the
   * change, and the event comes on sample number threshold + 2, exactly once.
   */
  lemma PressFiresAfterThreshold(s: OneShot, k: bv32, n: nat, threshold: nat)
    requires s.lastStatus != k && s.debounceCounter == 0 && threshold < DebounceBound
    ensures var t := RunOneShot(s, Repeat(k, n), threshold);
            forall i :: 0 <= i < n ==> t.keys[i] == if i == threshold + 1 then k else 0
  {
    if n > 0 {
      assert Repeat(k, n)[1..] == Repeat(k, n - 1);
      var r := OneShotStep(s, k, threshold);
      assert r == OneShotRead(OneShot(0, k, false), 0);
      HoldFiresOnce(r.state, n - 1, threshold);
    }
  }

  /** With either header's threshold, a key held from power-up fires on sample 8002 (or 10002). */
  lemma PowerUpPressLatency(k: bv32, n: nat, threshold: nat)
    requires k != 0 && (threshold == DebounceValue || threshold == DraftDebounceValue)
    ensures var t := RunOneShot(OneShotStart, Repeat(k, n), threshold);
            forall i :: 0 <= i < n ==> t.keys[i] == if i == threshold + 1 then k else 0
  {
    PressFiresAfterThreshold(OneShotStart, k, n, threshold);
  }

  /**
   * Keyboard_In counts repeated empty samples as well: with no key pressed
   * from power-up the filter locks (returning the empty mask) once the empty
   * sample has repeated past the threshold.
   */
  lemma IdleLocksOneShot(n: nat, threshold: nat)
    requires threshold < DebounceBound
    ensures RunOneShot(OneShotStart, Repeat(0, n), threshold).keys == Repeat(0, n)
    ensures RunOneShot(OneShotStart, Repeat(0, n), threshold).final.outputed <==> n > threshold
  {
    HoldFiresOnce(OneShotStart, n, threshold);
  }

  // ---------------------------------------------------------------------------
  // Keyboard_Continuous_In: the auto-repeat filter and its ramp
  // ---------------------------------------------------------------------------

  /**
   * The ramp part of the auto-repeat state: _waitingTimes, and
   * _currentVelocity as the step it was copied from plus its own
   * amountOfExecution (the other fields of the copy are those of the template).
   */
  datatype Ramp = Ramp(waitingTimes: nat, velocity: VelocityIndex, amountOfExecution: nat)

  datatype Crossed = Crossed(ramp: Ramp, emitted: bool)

  /**
   * What one crossing of the debounce threshold does to the ramp. It emits
   * exactly when enough crossings have been waited at the current step, and
   * then clears the wait; otherwise it only counts one more wait. It moves to
   * the next step, by exactly one position and with a fresh execution count,
   * exactly when it emits, a next step exists and this step's executions have
   * reached its quota.
   */
  function RampCrossing(r: Ramp): (c: Crossed)
    ensures c.emitted <==> r.waitingTimes >= Velocities[r.velocity].timeToWait
    ensures !c.emitted ==> c.ramp == r.(waitingTimes := r.waitingTimes + 1)
    ensures c.emitted ==> c.ramp.waitingTimes == 0
    ensures c.ramp.velocity == r.velocity || c.ramp.velocity == r.velocity + 1
    ensures c.ramp.velocity != r.velocity
        <==> c.emitted && Velocities[r.velocity].next.Some?
             && (r.amountOfExecution + 1) % UShortModulus >= Velocities[r.velocity].timesToExecute
    ensures c.ramp.velocity != r.velocity ==> c.ramp.amountOfExecution == 0
    ensures c.emitted && c.ramp.velocity == r.velocity
        ==> c.ramp.amountOfExecution == (r.amountOfExecution + 1) % UShortModulus
  {
    var v := Velocities[r.velocity];
    if r.waitingTimes >= v.timeToWait then
      var amount := (r.amountOfExecution + 1) % UShortModulus;
      if v.next.Some? && amount >= v.timesToExecute then
        Crossed(Ramp(0, v.next.value, Velocities[v.next.value].amountOfExecution), true)
      else
        Crossed(Ramp(0, r.velocity, amount), true)
    else
      Crossed(r.(waitingTimes := r.waitingTimes + 1), false)
  }

  /** The static state of Keyboard_Continuous_In together with _currentVelocity. */
  datatype Continuous = Continuous(debounceCounter: nat, lastStatus: bv32, outputed: bool, ramp: Ramp)

  datatype ContinuousRead = ContinuousRead(state: Continuous, keys: bv32)

  /** The static initialisers, with _currentVelocity set to velocity0 by Keyboard_Init. */
  const ContinuousStart: Continuous := Continuous(0, 0, false, Ramp(0, 0, Velocities[0].amountOfExecution))

  /**
   * What Keyboard_Continuous_In keeps between calls: counter bounds, a wait
   * no longer than the longest step's, a ramp that only leaves velocity0 while
   * locked, and an execution count below quota on every step that has a next.
   */
  ghost predicate ContinuousInvariant(s: Continuous, threshold: nat)
  {
    && s.debounceCounter <= threshold
    && s.debounceCounter <= DebounceBound
    && s.ramp.waitingTimes <= MaxWait
    && (!s.outputed ==> s.ramp.velocity == 0 && s.ramp.amountOfExecution == 0)
    && (Velocities[s.ramp.velocity].next.Some? ==>
          s.ramp.amountOfExecution < Velocities[s.ramp.velocity].timesToExecute)
  }

  /** A locked filter sees a different sample: the release that resets the ramp. */
  predicate Released(s: Continuous, status: bv32)
  {
    status != s.lastStatus && s.outputed
  }

  /**
   * The comparison of the sampled keys with the previous sample: the counter
   * grows by one exactly when a non-empty sample repeats below the saturation
   * bound (the lock plays no part); a release unlocks, clears the counter and
   * copies velocity0 back but keeps the wait; the sample is remembered.
   */
  function ContinuousCompare(s: Continuous, status: bv32): (c: Continuous)
    ensures c.lastStatus == status
    ensures c.debounceCounter > s.debounceCounter
        <==> status != 0 && status == s.lastStatus && s.debounceCounter < DebounceBound
    ensures c.debounceCounter > s.debounceCounter ==> c.debounceCounter == s.debounceCounter + 1
    ensures s.debounceCounter <= DebounceBound ==> c.debounceCounter <= DebounceBound
    ensures Released(s, status)
        ==> c == Continuous(0, status, false, Ramp(s.ramp.waitingTimes, 0, 0))
    ensures !Released(s, status)
        ==> c.outputed == s.outputed && c.ramp == s.ramp && c.debounceCounter >= s.debounceCounter
  {
    var c :=
      if status != 0 && status == s.lastStatus then
        if s.debounceCounter < DebounceBound then s.(debounceCounter := s.debounceCounter + 1) else s
      else if status != s.lastStatus && s.outputed then
        s.(outputed := false, debounceCounter := 0,
           ramp := s.ramp.(velocity := 0, amountOfExecution := Velocities[0].amountOfExecution))
      else
        s;
    c.(lastStatus := status)
  }

  /**
   * One call of Keyboard_Continuous_In on the masked sample `status`. It
   * returns either no key or the sample. Past the threshold the counter is
   * cleared and the ramp takes one crossing, whose emission decides the
   * result and sets the lock. A release returns no key and resets the ramp
   * to velocity0 without touching the wait; an empty sample never crosses.
   * The ramp stays, moves one step forward along the chain, or is reset by a
   * release, so the last step is only ever left by a release.
   */
  function ContinuousStep(s: Continuous, status: bv32, threshold: nat): (r: ContinuousRead)
    ensures r.state.lastStatus == status
    ensures r.keys == 0 || r.keys == status
    ensures r.state.debounceCounter <= threshold
    ensures var c := ContinuousCompare(s, status);
            c.debounceCounter > threshold ==>
              var x := RampCrossing(c.ramp);
              r == ContinuousRead(c.(debounceCounter := 0, outputed := c.outputed || x.emitted, ramp := x.ramp),
                                  if x.emitted then status else 0)
    ensures var c := ContinuousCompare(s, status);
            c.debounceCounter <= threshold ==> r == ContinuousRead(c, 0)
    ensures Released(s, status)
        ==> r == ContinuousRead(Continuous(0, status, false, Ramp(s.ramp.waitingTimes, 0, 0)), 0)
    ensures status == 0 && s.debounceCounter <= threshold ==> r.keys == 0 && r.state.ramp.velocity <= s.ramp.velocity
    ensures || r.state.ramp.velocity == s.ramp.velocity
            || (Velocities[s.ramp.velocity].next == Some(r.state.ramp.velocity) && r.state.ramp.velocity == s.ramp.velocity + 1)
            || (Released(s, status) && r.state.ramp.velocity == 0)
    ensures s.ramp.velocity == LastVelocity && !Released(s, status) ==> r.state.ramp.velocity == LastVelocity
    ensures ContinuousInvariant(s, threshold) ==> ContinuousInvariant(r.state, threshold)
  {
    var c := ContinuousCompare(s, status);
    if c.debounceCounter > threshold then
      var x := RampCrossing(c.ramp);
      ContinuousRead(c.(debounceCounter := 0, outputed := c.outputed || x.emitted, ramp := x.ramp),
                     if x.emitted then status else 0)
    else
      ContinuousRead(c, 0)
  }

  datatype ContinuousTrace = ContinuousTrace(final: Continuous, keys: seq<bv32>)

  function RunContinuous(s: Continuous, statuses: seq<bv32>, threshold: nat): (t: ContinuousTrace)
    ensures |t.keys| == |statuses|
    decreases |statuses|
  {
    if statuses == [] then ContinuousTrace(s, [])
    else
      var r := ContinuousStep(s, statuses[0], threshold);
      var rest := RunContinuous(r.state, statuses[1..], threshold);
      ContinuousTrace(rest.final, [r.keys] + rest.keys)
  }

  /** Running two stretches of samples is running their concatenation. */
  lemma {:induction false} RunContinuousAppend(s: Continuous, a: seq<bv32>, b: seq<bv32>, threshold: nat)
    ensures RunContinuous(s, a + b, threshold)
         == var x := RunContinuous(s, a, threshold);
            var y := RunContinuous(x.final, b, threshold);
            ContinuousTrace(y.final, x.keys + y.keys)
    decreases |a|
  {
    if a == [] {
      assert [] + b == b;
    } else {
      var r := ContinuousStep(s, a[0], threshold);
      var x := RunContinuous(r.state, a[1..], threshold);
      var y := RunContinuous(x.final, b, threshold);
      assert RunContinuous(s, a, threshold) == ContinuousTrace(x.final, [r.keys] + x.keys);
      assert RunContinuous(r.state, a[1..] + b, threshold) == ContinuousTrace(y.final, x.keys + y.keys) by {
        RunContinuousAppend(r.state, a[1..], b, threshold);
      }
      assert RunContinuous(s, a + b, threshold) == ContinuousTrace(y.final, [r.keys] + (x.keys + y.keys)) by {
        assert (a + b)[0] == a[0] && (a + b)[1..] == a[1..] + b;
      }
      assert [r.keys] + (x.keys + y.keys) == ([r.keys] + x.keys) + y.keys;
    }
  }

  /** The ramp after a number of threshold crossings, with the emission of each. */
  datatype RampTrace = RampTrace(final: Ramp, emissions: seq<bool>)

  function RunRamp(r: Ramp, n: nat): (t: RampTrace)
    ensures |t.emissions| == n
    decreases n
  {
    if n == 0 then RampTrace(r, [])
    else
      var c := RampCrossing(r);
      var rest := RunRamp(c.ramp, n - 1);
      RampTrace(rest.final, [c.emitted] + rest.emissions)
  }

  lemma {:induction false} RunRampAppend(r: Ramp, a: nat, b: nat)
    ensures RunRamp(r, a + b)
         == var x := RunRamp(r, a);
            var y := RunRamp(x.final, b);
            RampTrace(y.final, x.emissions + y.emissions)
    decreases a
  {
    if a > 0 {
      var c := RampCrossing(r);
      var x := RunRamp(c.ramp, a - 1);
      var y := RunRamp(x.final, b);
      assert RunRamp(c.ramp, a - 1 + b) == RampTrace(y.final, x.emissions + y.emissions) by {
        RunRampAppend(c.ramp, a - 1, b);
      }
      assert RunRamp(r, a) == RampTrace(x.final, [c.emitted] + x.emissions);
      assert RunRamp(r, a + b) == RampTrace(y.final, [c.emitted] + (x.emissions + y.emissions));
      assert [c.emitted] + (x.emissions + y.emissions) == ([c.emitted] + x.emissions) + y.emissions;
    }
  }

  /**
   * Waiting at a step: with `w` crossings already waited, the next emission
   * comes on crossing timeToWait - w + 1, and none before it.
   */
  lemma {:induction false} WaitThenEmit(r: Ramp)
    requires r.waitingTimes <= Velocities[r.velocity].timeToWait
    ensures var tw := Velocities[r.velocity].timeToWait;
            var m := tw - r.waitingTimes;
            RunRamp(r, m + 1) == RampTrace(RampCrossing(r.(waitingTimes := tw)).ramp, Repeat(false, m) + [true])
    decreases Velocities[r.velocity].timeToWait - r.waitingTimes
  {
    var tw := Velocities[r.velocity].timeToWait;
    var m := tw - r.waitingTimes;
    if m > 0 {
      var c := RampCrossing(r);
      assert !c.emitted;
      WaitThenEmit(c.ramp);
      assert [false] + (Repeat(false, m - 1) + [true]) == Repeat(false, m) + [true];
    }
  }

  /** The number of crossings `count` emissions take at a step that waits `wait` crossings before each. */
  function Span(wait: nat, count: nat): (n: nat)
  {
    if count == 0 then 0 else (wait + 1) + Span(wait, count - 1)
  }

  lemma {:induction false} SpanIsProduct(wait: nat, count: nat)
    ensures Span(wait, count) == count * (wait + 1)
  {
    if count > 0 {
      SpanIsProduct(wait, count - 1);
    }
  }

  /** `count` emissions, each after `wait` silent crossings. */
  function Cadence(wait: nat, count: nat): (e: seq<bool>)
    ensures |e| == Span(wait, count)
  {
    if count == 0 then []
    else Repeat(false, wait) + [true] + Cadence(wait, count - 1)
  }

  /**
   * Two runs of the ramp, one after the other, are one run over both spans.
   * This is RunRampAppend stated over given spans and traces, so that a proof
   * composing two runs at a concrete step does not unfold the runs again.
   */
  lemma ChainRuns(r: Ramp, a: nat, b: nat, n: nat, mid: Ramp, fin: Ramp, e1: seq<bool>, e2: seq<bool>, e: seq<bool>)
    requires n == a + b && e == e1 + e2
    requires RunRamp(r, a) == RampTrace(mid, e1)
    requires RunRamp(mid, b) == RampTrace(fin, e2)
    ensures RunRamp(r, n) == RampTrace(fin, e)
  {
    RunRampAppend(r, a, b);
  }

  /** The crossing that emits at a step with a successor counts one execution, and on the last of its quota moves on. */
  lemma QuotaCrossing(i: VelocityIndex, done: nat)
    requires Velocities[i].next.Some? && done < Velocities[i].timesToExecute
    ensures var v := Velocities[i];
            RampCrossing(Ramp(v.timeToWait, i, done)).ramp
            == if done + 1 == v.timesToExecute then Ramp(0, v.next.value, 0) else Ramp(0, i, done + 1)
  {
    assert Velocities[i].timesToExecute <= 10;
  }

  /** One emission at a step's cadence followed by `count - 1` more is `count` of them. */
  lemma CadenceStep(r: Ramp, wait: nat, count: nat, mid: Ramp, fin: Ramp)
    requires count > 0
    requires RunRamp(r, wait + 1) == RampTrace(mid, Repeat(false, wait) + [true])
    requires RunRamp(mid, Span(wait, count - 1)) == RampTrace(fin, Cadence(wait, count - 1))
    ensures RunRamp(r, Span(wait, count)) == RampTrace(fin, Cadence(wait, count))
  {
    ChainRuns(r, wait + 1, Span(wait, count - 1), Span(wait, count), mid, fin,
              Repeat(false, wait) + [true], Cadence(wait, count - 1), Cadence(wait, count));
  }

  /**
   * The cadence of one step, stated over the step's own values: entered with
   * a zero wait and `done` of its `quota` executions, the step emits the rest
   * of its quota one event every `wait + 1` crossings and hands over to its
   * successor with a zero wait and a fresh execution count.
   */
  lemma {:induction false} QuotaCadence(i: VelocityIndex, wait: nat, quota: nat, succ: VelocityIndex, done: nat)
    requires Velocities[i] == Velocity(wait, quota, 0, Some(succ)) && done < quota
    ensures RunRamp(Ramp(0, i, done), Span(wait, quota - done)) == RampTrace(Ramp(0, succ, 0), Cadence(wait, quota - done))
    decreases quota - done
  {
    var left := quota - done;
    var e := Repeat(false, wait) + [true];
    var mid := if left == 1 then Ramp(0, succ, 0) else Ramp(0, i, done + 1);
    assert RunRamp(Ramp(0, i, done), wait + 1) == RampTrace(mid, e) by {
      WaitThenEmit(Ramp(0, i, done));
      QuotaCrossing(i, done);
    }
    if left == 1 {
      assert Span(wait, left) == wait + 1 && Cadence(wait, left) == e && mid == Ramp(0, succ, 0);
    } else {
      QuotaCadence(i, wait, quota, succ, done + 1);
      CadenceStep(Ramp(0, i, done), wait, left, mid, Ramp(0, succ, 0));
    }
  }

  /**
   * A step that has a next step, entered with a zero wait and `done`
   * executions, emits its remaining quota at its own cadence and then hands
   * over to the next step with a zero wait and a fresh execution count.
   */
  lemma StepCadence(i: VelocityIndex, done: nat)
    requires Velocities[i].next.Some? && done < Velocities[i].timesToExecute
    ensures i < LastVelocity
    ensures var v := Velocities[i];
            var left := v.timesToExecute - done;
            RunRamp(Ramp(0, i, done), Span(v.timeToWait, left)) == RampTrace(Ramp(0, i + 1, 0), Cadence(v.timeToWait, left))
  {
    var v := Velocities[i];
    assert i < LastVelocity && v == Velocity(v.timeToWait, v.timesToExecute, 0, Some(i + 1));
    QuotaCadence(i, v.timeToWait, v.timesToExecute, i + 1, done);
  }

  /** The last step emits on every crossing and is never left while the key is held. */
  lemma {:induction false} LastStepEveryCrossing(r: Ramp, n: nat)
    requires r.velocity == LastVelocity
    ensures RunRamp(r, n).emissions == Repeat(true, n)
    ensures RunRamp(r, n).final.velocity == LastVelocity
    decreases n
  {
    if n > 0 {
      var c := RampCrossing(r);
      LastStepEveryCrossing(c.ramp, n - 1);
      assert [true] + Repeat(true, n - 1) == Repeat(true, n);
    }
  }

  /** The number of crossings from entering step `i` afresh to reaching the last step. */
  function CrossingsFrom(i: VelocityIndex): (n: nat)
    decreases LastVelocity - i
  {
    if i == LastVelocity then 0
    else Span(Velocities[i].timeToWait, Velocities[i].timesToExecute) + CrossingsFrom(i + 1)
  }

  /** The emissions of those crossings: each step's cadence in turn. */
  function ScheduleFrom(i: VelocityIndex): (e: seq<bool>)
    ensures |e| == CrossingsFrom(i)
    decreases LastVelocity - i
  {
    if i == LastVelocity then []
    else Cadence(Velocities[i].timeToWait, Velocities[i].timesToExecute) + ScheduleFrom(i + 1)
  }

  /** Entering step `i` afresh, the ramp runs the cadences of the remaining steps and ends at the last step. */
  lemma {:induction false} RampFrom(i: VelocityIndex)
    ensures RunRamp(Ramp(0, i, 0), CrossingsFrom(i)) == RampTrace(Ramp(0, LastVelocity, 0), ScheduleFrom(i))
    decreases LastVelocity - i
  {
    if i < LastVelocity {
      var v := Velocities[i];
      StepCadence(i, 0);
      RampFrom(i + 1);
      ChainRuns(Ramp(0, i, 0), Span(v.timeToWait, v.timesToExecute), CrossingsFrom(i + 1), CrossingsFrom(i),
                Ramp(0, i + 1, 0), Ramp(0, LastVelocity, 0),
                Cadence(v.timeToWait, v.timesToExecute), ScheduleFrom(i + 1), ScheduleFrom(i));
    }
  }

  /** A step that does not wait ignores a stale wait count from its first crossing on. */
  lemma StaleWaitIgnored(r: Ramp, n: nat)
    requires Velocities[r.velocity].timeToWait == 0 && n > 0
    ensures RunRamp(r, n) == RunRamp(r.(waitingTimes := 0), n)
  {
  }

  /**
   * The emissions of the ramp from velocity0 to velocity4, crossing by
   * crossing: one immediate event at velocity0, one after 20 waited crossings
   * at velocity1, five after 7 each at velocity2, ten after 2 each at
   * velocity3 — 92 crossings in all.
   */
  lemma RampSchedule()
    ensures CrossingsFrom(0) == 92
    ensures ScheduleFrom(0) == [true] + Cadence(20, 1) + Cadence(7, 5) + Cadence(2, 10)
  {
  }

  /**
   * After a release the ramp sits at velocity0 with a fresh count and some
   * stale wait: the whole schedule follows and the ramp ends at velocity4.
   */
  lemma FullRamp(r: Ramp)
    requires r.velocity == 0 && r.amountOfExecution == 0
    ensures RunRamp(r, CrossingsFrom(0)) == RampTrace(Ramp(0, LastVelocity, 0), ScheduleFrom(0))
  {
    StaleWaitIgnored(r, CrossingsFrom(r.velocity));
    RampFrom(r.velocity);
  }

  /**
   * Holding a non-empty key combination with a counter at or below the
   * threshold: the call that takes the counter past the threshold is one
   * crossing of the ramp, and every call before it returns no key.
   */
  lemma {:induction false} HoldReachesCrossing(s: Continuous, threshold: nat)
    requires s.lastStatus != 0 && s.debounceCounter <= threshold < DebounceBound
    ensures var n := threshold - s.debounceCounter + 1;
            var x := RampCrossing(s.ramp);
            RunContinuous(s, Repeat(s.lastStatus, n), threshold) ==
              ContinuousTrace(Continuous(0, s.lastStatus, s.outputed || x.emitted, x.ramp),
                              Repeat(0, n - 1) + [if x.emitted then s.lastStatus else 0])
    decreases threshold - s.debounceCounter
  {
    var k := s.lastStatus;
    var n := threshold - s.debounceCounter + 1;
    var x := RampCrossing(s.ramp);
    var out: bv32 := if x.emitted then k else 0;
    var c := s.(debounceCounter := s.debounceCounter + 1);
    assert ContinuousCompare(s, k) == c;
    var r := ContinuousStep(s, k, threshold);
    var rest := RunContinuous(r.state, Repeat(k, n - 1), threshold);
    assert RunContinuous(s, Repeat(k, n), threshold) == ContinuousTrace(rest.final, [r.keys] + rest.keys) by {
      assert Repeat(k, n)[0] == k && Repeat(k, n)[1..] == Repeat(k, n - 1);
    }
    if s.debounceCounter < threshold {
      assert r == ContinuousRead(c, 0);
      assert rest == ContinuousTrace(Continuous(0, k, s.outputed || x.emitted, x.ramp), Repeat(0, n - 2) + [out]) by {
        HoldReachesCrossing(c, threshold);
      }
      assert [0 as bv32] + (Repeat(0, n - 2) + [out]) == Repeat(0, n - 1) + [out];
    } else {
      assert r == ContinuousRead(Continuous(0, k, s.outputed || x.emitted, x.ramp), out);
      assert Repeat(k, n - 1) == [];
    }
  }

  /** The samples a held key produces for a run of crossings: each crossing is preceded by `threshold` silent samples. */
  function Expand(emissions: seq<bool>, keys: bv32, threshold: nat): (samples: seq<bv32>)
    ensures |samples| == |emissions| * (threshold + 1)
  {
    if emissions == [] then []
    else
      var rest := Expand(emissions[1..], keys, threshold);
      assert |emissions| * (threshold + 1) == (threshold + 1) + (|emissions| - 1) * (threshold + 1);
      Repeat(0, threshold) + [if emissions[0] then keys else 0] + rest
  }

  /** The first crossing of a hold, split off from the rest of the hold. */
  lemma HoldSplitsAtCrossing(s: Continuous, n: nat, threshold: nat)
    requires s.lastStatus != 0 && s.debounceCounter == 0 && threshold < DebounceBound && n > 0
    ensures var k := s.lastStatus;
            var m := threshold + 1;
            var x := RampCrossing(s.ramp);
            var rest := RunContinuous(Continuous(0, k, s.outputed || x.emitted, x.ramp), Repeat(k, (n - 1) * m), threshold);
            RunContinuous(s, Repeat(k, n * m), threshold) ==
              ContinuousTrace(rest.final, Repeat(0, threshold) + [if x.emitted then k else 0] + rest.keys)
  {
    var k := s.lastStatus;
    var m := threshold + 1;
    assert Repeat(k, n * m) == Repeat(k, m) + Repeat(k, (n - 1) * m) by {
      assert n * m == m + (n - 1) * m;
      RepeatAppend(k, m, (n - 1) * m);
    }
    RunContinuousAppend(s, Repeat(k, m), Repeat(k, (n - 1) * m), threshold);
    HoldReachesCrossing(s, threshold);
  }

  /**
   * Holding a non-empty key combination from a zero counter for `n` times
   * threshold + 1 samples behaves as `n` crossings of the ramp.
   */
  lemma {:induction false} HoldFollowsRamp(s: Continuous, n: nat, threshold: nat)
    requires s.lastStatus != 0 && s.debounceCounter == 0 && threshold < DebounceBound
    ensures var t := RunRamp(s.ramp, n);
            var h := RunContinuous(s, Repeat(s.lastStatus, n * (threshold + 1)), threshold);
            && h.keys == Expand(t.emissions, s.lastStatus, threshold)
            && h.final == Continuous(0, s.lastStatus, s.outputed || true in t.emissions, t.final)
    decreases n
  {
    var k := s.lastStatus;
    if n == 0 {
      assert Repeat(k, n * (threshold + 1)) == [];
    } else {
      var x := RampCrossing(s.ramp);
      var s1 := Continuous(0, k, s.outputed || x.emitted, x.ramp);
      HoldSplitsAtCrossing(s, n, threshold);
      HoldFollowsRamp(s1, n - 1, threshold);
      var t := RunRamp(s.ramp, n);
      var t1 := RunRamp(x.ramp, n - 1);
      assert t.emissions == [x.emitted] + t1.emissions && t.final == t1.final;
      assert t.emissions[1..] == t1.emissions;
      assert (true in t.emissions) <==> x.emitted || true in t1.emissions;
    }
  }

  /**
   * Releasing to a different key combination and holding it restarts the
   * ramp at velocity0: after the release sample, the crossings of the whole
   * schedule produce its events in order and leave the ramp at velocity4.
   */
  lemma RepressRestartsRamp(s: Continuous, k: bv32, threshold: nat)
    requires Released(s, k) && k != 0 && threshold < DebounceBound
    ensures var h := RunContinuous(s, [k] + Repeat(k, CrossingsFrom(0) * (threshold + 1)), threshold);
            && h.keys == [0] + Expand(ScheduleFrom(0), k, threshold)
            && h.final.ramp == Ramp(0, LastVelocity, 0)
  {
    var r := ContinuousStep(s, k, threshold);
    var s1 := Continuous(0, k, false, Ramp(s.ramp.waitingTimes, 0, 0));
    assert r == ContinuousRead(s1, 0);
    var hold := Repeat(k, CrossingsFrom(0) * (threshold + 1));
    assert ([k] + hold)[1..] == hold;
    HoldFollowsRamp(s1, CrossingsFrom(0), threshold);
    FullRamp(s1.ramp);
  }

  /** With no key pressed on an unlocked filter, nothing changes and no key is returned. */
  lemma {:induction false} IdleStaysPut(s: Continuous, z: nat, threshold: nat)
    requires s.lastStatus == 0 && !s.outputed && s.debounceCounter <= threshold
    ensures RunContinuous(s, Repeat(0, z), threshold) == ContinuousTrace(s, Repeat(0, z))
    decreases z
  {
    if z > 0 {
      assert ContinuousStep(s, 0, threshold) == ContinuousRead(s, 0);
      assert Repeat(0 as bv32, z)[0] == 0 && Repeat(0 as bv32, z)[1..] == Repeat(0, z - 1);
      IdleStaysPut(s, z - 1, threshold);
      assert [0 as bv32] + Repeat(0, z - 1) == Repeat(0, z);
    }
  }

  /**
   * The usual release: after an event the keys are let go (the empty mask),
   * stay released for any number of samples, and a non-empty combination is
   * pressed and held. The release sample resets the ramp to velocity0; the
   * idle samples and the press sample return no key; then the crossings of
   * the hold produce the whole ramp schedule, ending at velocity4.
   */
  lemma ReleaseToEmptyRestartsRamp(s: Continuous, k: bv32, z: nat, threshold: nat)
    requires s.outputed && s.lastStatus != 0 && k != 0 && threshold < DebounceBound
    ensures var hold := Repeat(k, CrossingsFrom(0) * (threshold + 1));
            var h := RunContinuous(s, [0] + (Repeat(0, z) + ([k] + hold)), threshold);
            && h.keys == [0] + (Repeat(0, z) + ([0] + Expand(ScheduleFrom(0), k, threshold)))
            && h.final.ramp == Ramp(0, LastVelocity, 0)
  {
    var hold := Repeat(k, CrossingsFrom(0) * (threshold + 1));
    var pressed := [k] + hold;
    var tail := Repeat(0, z) + pressed;
    var s1 := Continuous(0, 0, false, Ramp(s.ramp.waitingTimes, 0, 0));
    var s2 := Continuous(0, k, false, s1.ramp);
    var t2 := RunContinuous(s2, hold, threshold);
    assert t2.keys == Expand(ScheduleFrom(0), k, threshold) && t2.final.ramp == Ramp(0, LastVelocity, 0) by {
      HoldFollowsRamp(s2, CrossingsFrom(0), threshold);
      FullRamp(s2.ramp);
    }
    var t1 := RunContinuous(s1, pressed, threshold);
    assert t1 == ContinuousTrace(t2.final, [0] + t2.keys) by {
      assert ContinuousStep(s1, k, threshold) == ContinuousRead(s2, 0);
      assert pressed[0] == k && pressed[1..] == hold;
    }
    var t0 := RunContinuous(s1, tail, threshold);
    assert t0 == ContinuousTrace(t1.final, Repeat(0, z) + t1.keys) by {
      RunContinuousAppend(s1, Repeat(0, z), pressed, threshold);
      IdleStaysPut(s1, z, threshold);
    }
    assert RunContinuous(s, [0] + tail, threshold) == ContinuousTrace(t0.final, [0] + t0.keys) by {
      assert ContinuousStep(s, 0, threshold) == ContinuousRead(s1, 0);
      assert ([0] + tail)[0] == 0 && ([0] + tail)[1..] == tail;
    }
  }

  // ---------------------------------------------------------------------------
  // The driver's static state
  // ---------------------------------------------------------------------------

  /**
   * The keyboard driver: the function-static variables of Keyboard_In and
   * Keyboard_Continuous_In and the global _currentVelocity, with the debounce
   * threshold fixed at construction.
   */
  class Keyboard {
    const debounceValue: nat

    // Keyboard_In
    var inDebounceCounter: nat
    var inLastStatus: bv32
    var inOutputed: bool

    // Keyboard_Continuous_In
    var waitingTimes: nat
    var continuousDebounceCounter: nat
    var continuousLastStatus: bv32
    var continuousOutputed: bool

    // _currentVelocity: the template it was copied from and its own execution count
    var currentVelocity: VelocityIndex
    var amountOfExecution: nat

    ghost function OneShotState(): (s: OneShot)
      reads this
    {
      OneShot(inDebounceCounter, inLastStatus, inOutputed)
    }

    ghost function ContinuousState(): (s: Continuous)
      reads this
    {
      Continuous(continuousDebounceCounter, continuousLastStatus, continuousOutputed,
                 Ramp(waitingTimes, currentVelocity, amountOfExecution))
    }

    ghost predicate Valid()
      reads this
    {
      && OneShotInvariant(OneShotState(), debounceValue)
      && ContinuousInvariant(ContinuousState(), debounceValue)
      && inLastStatus <= EnabledKeysMask
      && continuousLastStatus <= EnabledKeysMask
    }

    /** The static initialisers followed by Keyboard_Init's copy of velocity0. */
    constructor (debounceValue: nat)
      ensures Valid()
      ensures this.debounceValue == debounceValue
      ensures OneShotState() == OneShotStart && ContinuousState() == ContinuousStart
    {
      this.debounceValue := debounceValue;
      inDebounceCounter, inLastStatus, inOutputed := 0, 0, false;
      waitingTimes, continuousDebounceCounter, continuousLastStatus, continuousOutputed := 0, 0, 0, false;
      currentVelocity := 0;
      amountOfExecution := Velocities[0].amountOfExecution;
    }

    /** Keyboard_Init without the port setup: _currentVelocity becomes a fresh copy of velocity0. */
    method Init()
      requires Valid()
      modifies this
      ensures Valid()
      ensures OneShotState() == old(OneShotState())
      ensures ContinuousState() == old(ContinuousState()).(ramp := Ramp(old(waitingTimes), 0, 0))
    {
      currentVelocity := 0;
      amountOfExecution := Velocities[0].amountOfExecution;
    }

    /** Keyboard_In: at most one event per press. */
    method In(portData: bv32) returns (keys: bv32)
      requires Valid()
      modifies this
      ensures Valid()
      ensures OneShotRead(OneShotState(), keys) == OneShotStep(old(OneShotState()), InNoDebounce(portData), debounceValue)
      ensures ContinuousState() == old(ContinuousState())
      ensures keys == 0 || keys == InNoDebounce(portData)
      ensures inLastStatus == InNoDebounce(portData)
    {
      var currentStatus := InNoDebounce(portData);
      if currentStatus == inLastStatus && !inOutputed {
        if inDebounceCounter < DebounceBound {
          inDebounceCounter := inDebounceCounter + 1;
        }
      } else if currentStatus != inLastStatus && inOutputed {
        inOutputed := false;
      }
      inLastStatus := currentStatus;
      if inDebounceCounter > debounceValue {
        inOutputed := true;
        inDebounceCounter := 0;
        keys := currentStatus;
      } else {
        keys := 0;
      }
    }

    /** Keyboard_Continuous_In: events that repeat faster and faster while a key is held. */
    method ContinuousIn(portData: bv32) returns (keys: bv32)
      requires Valid()
      modifies this
      ensures Valid()
      ensures ContinuousRead(ContinuousState(), keys) == ContinuousStep(old(ContinuousState()), InNoDebounce(portData), debounceValue)
      ensures OneShotState() == old(OneShotState())
      ensures keys == 0 || keys == InNoDebounce(portData)
      ensures InNoDebounce(portData) == 0 ==> keys == 0
      ensures continuousLastStatus == InNoDebounce(portData)
    {
      ghost var s0 := ContinuousState();
      var currentStatus := InNoDebounce(portData);
      CompareContinuous(currentStatus);
      if continuousDebounceCounter > debounceValue {
        keys := CrossThreshold(currentStatus);
      } else {
        keys := 0;
      }
      assert ContinuousRead(ContinuousState(), keys) == ContinuousStep(s0, currentStatus, debounceValue);
    }

    /** Lines 113-128 of Keyboard_Continuous_In: compare the sample with the previous one and remember it. */
    method CompareContinuous(currentStatus: bv32)
      modifies this
      ensures ContinuousState() == ContinuousCompare(old(ContinuousState()), currentStatus)
      ensures OneShotState() == old(OneShotState())
    {
      if currentStatus != 0 && currentStatus == continuousLastStatus {
        if continuousDebounceCounter < DebounceBound {
          continuousDebounceCounter := continuousDebounceCounter + 1;
        }
      } else if currentStatus != continuousLastStatus && continuousOutputed {
        continuousOutputed := false;
        continuousDebounceCounter := 0;
        currentVelocity := 0;
        amountOfExecution := Velocities[0].amountOfExecution;
      }
      continuousLastStatus := currentStatus;
    }

    /** Lines 131-149 of Keyboard_Continuous_In: one crossing of the debounce threshold. */
    method CrossThreshold(currentStatus: bv32) returns (keys: bv32)
      modifies this
      ensures var c := old(ContinuousState());
              var x := RampCrossing(c.ramp);
              && ContinuousState() == c.(debounceCounter := 0, outputed := c.outputed || x.emitted, ramp := x.ramp)
              && keys == if x.emitted then currentStatus else 0
      ensures OneShotState() == old(OneShotState())
    {
      if waitingTimes >= Velocities[currentVelocity].timeToWait {
        // a step with a successor is left once its quota of executions is reached
        amountOfExecution := (amountOfExecution + 1) % UShortModulus;
        var next := Velocities[currentVelocity].next;
        if next.Some? {
          if amountOfExecution >= Velocities[currentVelocity].timesToExecute {
            currentVelocity := next.value;
            amountOfExecution := Velocities[next.value].amountOfExecution;
          }
        }
        continuousOutputed := true;
        waitingTimes := 0;
        continuousDebounceCounter := 0;
        keys := currentStatus;
      } else {
        waitingTimes := waitingTimes + 1;
        continuousDebounceCounter := 0;
        keys := 0;
      }
    }
  }
}
