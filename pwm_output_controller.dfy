/**
 * The motor start/stop command mailbox of the PWM output controller
 * (Source/Main/PwmOutputController.c with the constants of
 * PwmOutputController.h).
 *
 * The controller keeps two globals: the motor state and a single-slot
 * mailbox holding the last start or stop request. Start posts a start request
 * only while the motor is stopped, Stop posts a stop request only while it is
 * started, and neither touches the motor state. Whoever drains the mailbox
 * and changes the motor state is outside these files.
 */
module PwmOutput {

  /** C `unsigned short`, the type of the motor state and of a frequency. */
  newtype UShort = x: int | 0 <= x < 0x1_0000

  /** C `unsigned char`, the type of the mailbox. */
  newtype UChar = x: int | 0 <= x < 0x100

  const NoneClicked: UChar := 0
  const StartClicked: UChar := 1
  const StopClicked: UChar := 2

  const SmStarted: UShort := 0
  const SmStopped: UShort := 1

  /** The two globals of the controller. */
  datatype Controller = Controller(motorState: UShort, buttonClicked: UChar)

  /** The static initialisers: a stopped motor and an empty mailbox. */
  const Initial: Controller := Controller(SmStopped, NoneClicked)

  /**
   * PwmOuputController_Start: a stopped motor gets a start request in the
   * mailbox, whatever the mailbox held; in every other motor state
   * nothing changes. The motor state is never written.
   */
  function OnStart(c: Controller): (d: Controller)
    ensures d.motorState == c.motorState
    ensures c.motorState == SmStopped ==> d.buttonClicked == StartClicked
    ensures c.motorState != SmStopped ==> d == c
  {
    if c.motorState == SmStopped then c.(buttonClicked := StartClicked) else c
  }

  /**
   * PwmOuputController_Stop: a started motor gets a stop request in the
   * mailbox; in every other motor state nothing changes. The motor state
   * is never written.
   */
  function OnStop(c: Controller): (d: Controller)
    ensures d.motorState == c.motorState
    ensures c.motorState == SmStarted ==> d.buttonClicked == StopClicked
    ensures c.motorState != SmStarted ==> d == c
  {
    if c.motorState == SmStarted then c.(buttonClicked := StopClicked) else c
  }

  /** PwmOuputController_UpdateFrequency: a placeholder that changes nothing for any frequency. */
  function OnUpdateFrequency(c: Controller, freq: UShort): (d: Controller)
    ensures d == c
  {
    c
  }

  /** A call into the controller's public interface. */
  datatype Call = StartCall | StopCall | UpdateFrequencyCall(freq: UShort)

  function Apply(c: Controller, call: Call): (d: Controller)
  {
    match call
    case StartCall => OnStart(c)
    case StopCall => OnStop(c)
    case UpdateFrequencyCall(freq) => OnUpdateFrequency(c, freq)
  }

  /** The controller after a sequence of calls, first to last. */
  function ApplyAll(c: Controller, calls: seq<Call>): (d: Controller)
    decreases |calls|
  {
    if calls == [] then c else ApplyAll(Apply(c, calls[0]), calls[1..])
  }

  /** No sequence of calls changes the motor state. */
  lemma {:induction false} CallsKeepMotorState(c: Controller, calls: seq<Call>)
    ensures ApplyAll(c, calls).motorState == c.motorState
    decreases |calls|
  {
    if calls != [] {
      CallsKeepMotorState(Apply(c, calls[0]), calls[1..]);
    }
  }

  /**
   * The mailbox after a sequence of calls: since the motor state stays put,
   * only one of the two requests can ever be posted. If the motor is stopped
   * and some Start was called, the mailbox holds a start request; if it is
   * started and some Stop was called, a stop request; in every other case the
   * mailbox keeps whatever it held before, which may itself be a request.
   * Posting the same request again changes nothing, so it does not matter how
   * often or in which order the calls came.
   */
  lemma {:induction false} MailboxAfterCalls(c: Controller, calls: seq<Call>)
    ensures var d := ApplyAll(c, calls);
            d.buttonClicked
            == if c.motorState == SmStopped && StartCall in calls then StartClicked
               else if c.motorState == SmStarted && StopCall in calls then StopClicked
               else c.buttonClicked
    decreases |calls|
  {
    if calls != [] {
      var c' := Apply(c, calls[0]);
      MailboxAfterCalls(c', calls[1..]);
      assert c'.motorState == c.motorState;
      assert calls == [calls[0]] + calls[1..];
      assert StartCall in calls <==> calls[0] == StartCall || StartCall in calls[1..];
      assert StopCall in calls <==> calls[0] == StopCall || StopCall in calls[1..];
    }
  }

  /** From power-up the mailbox holds a start request exactly when Start was called, and never a stop request. */
  lemma PowerUpMailbox(calls: seq<Call>)
    ensures ApplyAll(Initial, calls).buttonClicked == StartClicked <==> StartCall in calls
    ensures ApplyAll(Initial, calls).buttonClicked != StopClicked
    ensures StartCall !in calls ==> ApplyAll(Initial, calls) == Initial
  {
    MailboxAfterCalls(Initial, calls);
    CallsKeepMotorState(Initial, calls);
  }

  /** Start and Stop are idempotent, and for any motor state at most one of them does anything. */
  lemma RequestsIdempotentAndExclusive(c: Controller)
    ensures OnStart(OnStart(c)) == OnStart(c)
    ensures OnStop(OnStop(c)) == OnStop(c)
    ensures OnStart(c) == c || OnStop(c) == c
  {
  }

  /**
   * The controller as an object: the two globals become fields, and each
   * entry point updates them as the corresponding step function says.
   */
  class PwmOutputController {
    var motorState: UShort
    var buttonClicked: UChar

    function State(): (s: Controller)
      reads this
    {
      Controller(motorState, buttonClicked)
    }

    constructor ()
      ensures State() == Initial
    {
      motorState := SmStopped;
      buttonClicked := NoneClicked;
    }

    method Start()
      modifies this
      ensures State() == OnStart(old(State()))
      ensures motorState == old(motorState)
    {
      if motorState == SmStopped {
        buttonClicked := StartClicked;
      }
    }

    method Stop()
      modifies this
      ensures State() == OnStop(old(State()))
      ensures motorState == old(motorState)
    {
      if motorState == SmStarted {
        buttonClicked := StopClicked;
      }
    }

    method UpdateFrequency(freq: UShort)
      modifies this
      ensures State() == OnUpdateFrequency(old(State()), freq)
    {
    }
  }
}
