# Keyboard driver and motor command mailbox of VariableFrequencyDriver

This project models two parts of a variable-frequency motor controller that runs on a TM4C123 microcontroller.

**The keyboard driver** (`keyboard.dfy`, module `KeyboardDriver`) reads a five-bit key register. It offers three reads:

- `InNoDebounce`: the register masked to the key lines, with no debouncing.
- `Keyboard_In`: a one-shot debounce filter. It counts repeated identical samples. It returns the sample once the count passes the debounce threshold, then locks until the sample changes.
- `Keyboard_Continuous_In`: an auto-repeat filter. Each time the count passes the threshold is one *crossing* of a ramp. The ramp walks a fixed chain of five velocity steps: velocity0 to velocity4.
  - Each step waits a number of crossings between events.
  - Each step emits a quota of events before handing over to the next step.
  - So a held key repeats faster and faster.
  - A change of sample while locked (a *release*) copies velocity0 back.

Each filter is a pure step function on a datatype holding its function-static variables: `OneShotStep`, `ContinuousStep` and `RampCrossing`. Run functions fold the steps over a sequence of samples. Lemmas about those runs prove latency, fire-once, ramp-schedule and restart properties.

The class `Keyboard` keeps the statics in fields. Its methods `In` and `ContinuousIn` follow the C bodies. Each is proved to perform exactly one step and to keep the filter invariants.

The register value is a parameter of every read. The debounce threshold is a parameter of the class. Two thresholds exist in the sources: 8000 in `Source/DeviceDrivers/Keyboard.h` and 10000 in the top-level `Keyboard.h`.

**The PWM output controller** (`pwm_output_controller.dfy`, module `PwmOutput`) holds two globals:

- the motor state, an `unsigned short`;
- a single-slot mailbox of button events, an `unsigned char`.

`Start` posts a start request only while the motor is stopped. `Stop` posts a stop request only while it is started. `UpdateFrequency` does nothing. None of them writes the motor state.

The step functions `OnStart`, `OnStop` and `OnUpdateFrequency` specify the class `PwmOutputController`. The lemmas work over arbitrary sequences of calls. They show that the motor state never changes. The mailbox ends up holding the request the motor state allows, if that request was called; otherwise it keeps its old content. For that reason repeated calls are idempotent.

Integer widths:

- The key masks are `bv32`.
- `amountOfExecution` is an `unsigned short` and wraps modulo 2^16 explicitly.
- The debounce counter saturates at DEBOUNCE_BOUND, as in the source.
- The wait counter is bounded by the longest step wait (20), so it cannot wrap.

What the code does, including where it departs from its own comments:

- The comment at Keyboard.c:65 says the counter of `Keyboard_In` grows while a key is pressed. The test at line 68 does not check for a key. Repeated empty samples count too, so with no key pressed the filter locks after the threshold and returns the empty mask (`IdleLocksOneShot`).
- The comments at Keyboard.c:72 and 119 speak of the first key release. In fact any change of sample releases the lock, including a direct switch to another non-empty combination (`RepressRestartsRamp`).
- An unlocked filter that sees a different sample keeps its debounce count (Keyboard.c:68-75 and 114-125). So counts from interrupted presses add up: a short press, a gap and another press can fire sooner than a fresh press would (`OneShotCompare`, `ContinuousCompare`).
- The test at Keyboard.c:81 is strict, so an event comes on the sample that takes the counter *past* DEBOUNCE_VALUE. From a zero counter that is sample threshold + 1 when the key was already the last sample. It is sample threshold + 2 when the key is a new one (`HoldFiresOnce`, `PressFiresAfterThreshold`).
- In `Keyboard_Continuous_In`:
  - The counter gate at line 114 ignores the lock, so a held key goes on counting after an event.
  - A release copies velocity0 back (line 123) but leaves `_waitingTimes` as it was (`StaleWaitIgnored`).
  - The counter is cleared on every crossing, whether it emits or not (lines 144 and 148).

## Model

| member | source | states |
|---|---|---|
| KeyboardDriver.KeyFiveAsWrittenOverlaps | Source/DeviceDrivers/Keyboard.h:17-22 | KEY_FIVE as written (0x16) contains the bits of KEY_TWO and KEY_THREE, inside ENABLED_KEYS_MASK |
| KeyboardDriver.KeysPartitionMask | Source/DeviceDrivers/Keyboard.h:17-22 | with KEY_FIVE = 0x10 the five key constants are pairwise disjoint and together form ENABLED_KEYS_MASK |
| KeyboardDriver.InNoDebounce | Source/DeviceDrivers/Keyboard.c:45-48 | the result has no bit outside ENABLED_KEYS_MASK (so it is at most 0x1F) and with the register's other bits gives back the register |
| KeyboardDriver.InNoDebounceIdempotent | Source/DeviceDrivers/Keyboard.c:45-48 | masking an already masked read changes nothing |
| KeyboardDriver.VelocityChainIsLinear | Source/DeviceDrivers/Keyboard.c:14-18 | the five templates form one forward chain velocity0 to velocity4; every execution count starts at 0; every step with a successor has a quota between 1 and 2^16 - 1 |
| KeyboardDriver.MaxTimeToWait | Source/DeviceDrivers/Keyboard.c:14-18 | the result bounds every step's wait and is attained by some step |
| KeyboardDriver.MaxWaitIsLongest | Source/DeviceDrivers/Keyboard.c:14-18 | the longest wait of the chain is 20 (velocity1's) |
| KeyboardDriver.OneShotCompare | Source/DeviceDrivers/Keyboard.c:65-78 | the counter grows by one exactly when the sample repeats, the filter is unlocked and the counter is below DEBOUNCE_BOUND, and otherwise stays; the lock survives exactly when the sample repeats; the sample is remembered |
| KeyboardDriver.OneShotStep | Source/DeviceDrivers/Keyboard.c:56-89 | past the threshold the sample is returned, the filter locks and the counter is cleared; otherwise no key and the compared state; the counter never ends above the threshold; the invariant (counter bounds, locked implies zero counter) is preserved |
| KeyboardDriver.LockedStaysSilent | Source/DeviceDrivers/Keyboard.c:65-87 | a locked filter fed its last sample any number of times returns no key and does not change |
| KeyboardDriver.HoldFiresOnce | Source/DeviceDrivers/Keyboard.c:65-87 | an unlocked filter fed its last sample returns it exactly once, on the call that takes the counter past the threshold, and is then locked with a zero counter; before that the counter has grown by the number of calls |
| KeyboardDriver.PressFiresAfterThreshold | Source/DeviceDrivers/Keyboard.c:56-89 | holding a new key combination from a zero counter returns it exactly once, at sample threshold + 2, and no key on every other sample |
| KeyboardDriver.PowerUpPressLatency | Source/DeviceDrivers/Keyboard.c:56-89 | with either header's DEBOUNCE_VALUE, a non-empty key held from power-up fires once, on sample DEBOUNCE_VALUE + 2 |
| KeyboardDriver.IdleLocksOneShot | Source/DeviceDrivers/Keyboard.c:68-87 | with no key pressed from power-up every call returns no key, and the filter becomes locked exactly when more than threshold samples were taken |
| KeyboardDriver.RampCrossing | Source/DeviceDrivers/Keyboard.c:131-149 | a crossing emits exactly when the wait has reached the step's timeToWait, then clears the wait, and otherwise only counts one more wait; it moves one step forward, with a fresh count, exactly when it emits, a next step exists and the 16-bit execution count has reached the quota; otherwise the count is incremented modulo 2^16 |
| KeyboardDriver.ContinuousCompare | Source/DeviceDrivers/Keyboard.c:113-128 | the counter grows by one exactly when a non-empty sample repeats below DEBOUNCE_BOUND; a release unlocks, clears the counter and resets the ramp to velocity0 keeping the wait; without a release the lock and ramp are unchanged; the sample is remembered |
| KeyboardDriver.ContinuousStep | Source/DeviceDrivers/Keyboard.c:98-153 | the result is no key or the sample; past the threshold it is one ramp crossing that clears the counter and locks if it emits; otherwise no key; a release returns no key with the ramp reset; an empty sample never emits; the velocity stays, advances one step along the chain, or is reset by a release; the invariant (counter and wait bounds, unlocked implies velocity0 with a zero count, count below quota on every step with a successor) is preserved |
| KeyboardDriver.WaitThenEmit | Source/DeviceDrivers/Keyboard.c:132-147 | at a step with w crossings already waited, the next timeToWait - w crossings are silent and the following one emits |
| KeyboardDriver.QuotaCrossing | Source/DeviceDrivers/Keyboard.c:135-140 | the emitting crossing at a step with a successor counts one more execution, and the one that completes the quota moves to the successor with a fresh count |
| KeyboardDriver.QuotaCadence | Source/DeviceDrivers/Keyboard.c:132-147 | for any step with a successor, wait w and quota q, entered with a zero wait and d < q executions: the next (q - d)(w + 1) crossings emit once every w + 1 crossings and end at the successor with a zero wait and count |
| KeyboardDriver.StepCadence | Source/DeviceDrivers/Keyboard.c:132-140 | a step with a successor, entered with a zero wait, emits its remaining quota one event every timeToWait + 1 crossings and hands over to the next step with a zero wait and a zero count |
| KeyboardDriver.LastStepEveryCrossing | Source/DeviceDrivers/Keyboard.c:14-18 | at velocity4 (no wait, no successor) every crossing emits and the ramp never leaves the step |
| KeyboardDriver.RampFrom | Source/DeviceDrivers/Keyboard.c:131-149 | entering any step afresh, the ramp runs the cadences of the remaining steps in order and ends at velocity4 |
| KeyboardDriver.StaleWaitIgnored | Source/DeviceDrivers/Keyboard.c:120-132 | at a step that does not wait, an old wait count left by a release makes no difference to any non-empty run of crossings |
| KeyboardDriver.RampSchedule | Source/DeviceDrivers/Keyboard.c:14-18 | the full ramp is 92 crossings: one immediate event, one after 20 silent crossings, five after 7 each, ten after 2 each |
| KeyboardDriver.FullRamp | Source/DeviceDrivers/Keyboard.c:120-149 | after a release (velocity0, zero count, any wait) the crossings produce the full schedule and end at velocity4 |
| KeyboardDriver.HoldReachesCrossing | Source/DeviceDrivers/Keyboard.c:114-149 | holding a non-empty key from a counter at or below the threshold returns no key until the call that passes the threshold, which is one ramp crossing |
| KeyboardDriver.HoldFollowsRamp | Source/DeviceDrivers/Keyboard.c:98-153 | holding a non-empty key for n(threshold + 1) samples from a zero counter returns, sample by sample, the ramp's n emissions each preceded by threshold silent samples, and ends at the ramp's state after n crossings, locked if anything was emitted |
| KeyboardDriver.RepressRestartsRamp | Source/DeviceDrivers/Keyboard.c:120-124 | releasing to a different non-empty key combination and holding it returns no key on the release sample, then the whole ramp schedule, and ends at velocity4 |
| KeyboardDriver.IdleStaysPut | Source/DeviceDrivers/Keyboard.c:114-151 | an unlocked auto-repeat filter whose last sample is empty stays unchanged and returns no key for any number of empty samples |
| KeyboardDriver.ReleaseToEmptyRestartsRamp | Source/DeviceDrivers/Keyboard.c:120-124 | after an event, letting go of the keys (empty mask) for any number of samples and then holding a non-empty combination returns no key until the hold, then the whole ramp schedule from velocity0, and ends at velocity4 |
| KeyboardDriver.Keyboard.constructor | Source/DeviceDrivers/Keyboard.c:36-108 | every static starts at its initialiser: Keyboard_In (lines 57-59) at zero counter, empty last sample, unlocked; Keyboard_Continuous_In (lines 100-108) likewise with a zero wait; the current velocity is Keyboard_Init's copy of velocity0 (line 36); the invariant holds |
| KeyboardDriver.Keyboard.Init | Source/DeviceDrivers/Keyboard.c:25-38 | velocity0 is copied into the current velocity; nothing else of the filter state changes |
| KeyboardDriver.Keyboard.In | Source/DeviceDrivers/Keyboard.c:56-89 | the call performs exactly OneShotStep on the masked register; returns no key or the masked register; leaves the auto-repeat state alone; keeps the invariant |
| KeyboardDriver.Keyboard.ContinuousIn | Source/DeviceDrivers/Keyboard.c:98-153 | the call performs exactly ContinuousStep on the masked register; returns no key or the masked register, no key for an empty register; leaves the one-shot state alone; keeps the invariant |
| KeyboardDriver.Keyboard.CompareContinuous | Source/DeviceDrivers/Keyboard.c:113-128 | the fields change exactly as ContinuousCompare says |
| KeyboardDriver.Keyboard.CrossThreshold | Source/DeviceDrivers/Keyboard.c:131-149 | the fields change as one RampCrossing with the counter cleared and the lock set on emission; the sample is returned exactly on emission |
| PwmOutput.OnStart | Source/Main/PwmOutputController.c:66-73 | a stopped motor gets START_CLICKED in the mailbox; in any other motor state nothing changes; the motor state is never written |
| PwmOutput.OnStop | Source/Main/PwmOutputController.c:81-88 | a started motor gets STOP_CLICKED in the mailbox; in any other motor state nothing changes; the motor state is never written |
| PwmOutput.OnUpdateFrequency | Source/Main/PwmOutputController.c:95-98 | no state changes, for every frequency |
| PwmOutput.CallsKeepMotorState | Source/Main/PwmOutputController.c:66-98 | no sequence of Start, Stop and UpdateFrequency calls changes the motor state |
| PwmOutput.MailboxAfterCalls | Source/Main/PwmOutputController.c:66-88 | after any sequence of calls the mailbox holds START_CLICKED if the motor is stopped and Start was called, STOP_CLICKED if it is started and Stop was called, and in every other case its old content (which may already be a request), whatever the order and number of calls |
| PwmOutput.PowerUpMailbox | Source/Main/PwmOutputController.c:23-24 | from the initial state the mailbox holds START_CLICKED exactly when Start was called and never STOP_CLICKED; without Start the state is unchanged |
| PwmOutput.RequestsIdempotentAndExclusive | Source/Main/PwmOutputController.c:66-88 | Start twice is Start once, Stop twice is Stop once, and in any state at least one of them changes nothing |
| PwmOutput.PwmOutputController.constructor | Source/Main/PwmOutputController.c:23-24 | the motor starts SM_STOPPED with an empty mailbox (NONE_CLICKED) |
| PwmOutput.PwmOutputController.Start | Source/Main/PwmOutputController.c:66-73 | the fields change exactly as OnStart says; the motor state is unchanged |
| PwmOutput.PwmOutputController.Stop | Source/Main/PwmOutputController.c:81-88 | the fields change exactly as OnStop says; the motor state is unchanged |
| PwmOutput.PwmOutputController.UpdateFrequency | Source/Main/PwmOutputController.c:95-98 | the fields do not change |

## Left out

- GPIO port setup in Keyboard_Init (Source/DeviceDrivers/Keyboard.c:27-34) is left out: it is memory-mapped register writes with no logic. The port data register is a parameter of each read.
- PwmOuputController_Init and Systick_Init (Source/Main/PwmOutputController.c:35-58) are left out: they only do LED and SysTick hardware setup, and DEFAULT_RELOAD is a placeholder.
- LEDs, Debug, the display manager, the frequency manager and Main are not part of this model.
- Who drains the mailbox and changes the motor state is not in these sources, so it is not modelled. No tick handler, waveform table or frequency computation exists in them either.
- Interrupt and foreground concurrency around `_buttonClicked` is left out. Each call is modelled as atomic.
- The all-zero `_currentVelocity` that exists before Keyboard_Init runs is left out. The constructor starts with velocity0 copied in, as after Keyboard_Init.
- RampCrossing: the 16-bit wrap of amountOfExecution is written out. On a step with a successor the invariant keeps the count below the quota, so it never wraps there. No property is stated about the wrap on velocity4, where it has no effect on behaviour.
- Keyboard.ContinuousIn: the early return inside Keyboard_Continuous_In's threshold branch is written as two helper methods, CompareContinuous and CrossThreshold, with the same effect.
- `Keyboard_In`'s and `Keyboard_Continuous_In`'s `unsigned long` counters are unbounded naturals. They are bounded by DEBOUNCE_BOUND and by the longest wait, so no 32-bit wrap can occur.

## Findings

| source | as written | input that shows it | evidently intended | confidence | as-written member | corrected member |
|---|---|---|---|---|---|---|
| Source/DeviceDrivers/Keyboard.h:21 | KEY_FIVE is 0x16, which is KEY_TWO, KEY_THREE and bit 4 together | a read of 0x02 (only key two pressed) has a bit in common with KEY_FIVE, so a test for key five would see a press | 0x10, the fifth line of ENABLED_KEYS_MASK (0x1F), so that the five keys are disjoint single lines | not executed | KeyboardDriver.KeyFiveAsWrittenOverlaps | KeyboardDriver.KeysPartitionMask |
