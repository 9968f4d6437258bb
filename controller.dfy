/**
  The per-wake cycle controller of extension-unit-TWELITE.cpp as pure
  functions: one pass of the switch in loop(), the do/while that repeats it
  while loop_more is set, and a run of several loop() calls.

  Everything the controller asks of the outside world during one loop()
  call (tick timer, button words, packet preparation, send result, the
  millis() clock at each place it is read, completion status, the random
  sleep draw) is an Env value; everything it does to the outside world
  (transmit, sleep, delay, reset) is recorded as an Effect.
 */
module Controller {
  import opened Common
  import opened Payload

  /** Counter start value set in INIT. */
  const WORK_COUNT: int := 100
  /** WAIT_TX gives up after more than this many milliseconds. */
  const TX_TIMEOUT_MS: uint32 := 100
  /** Pause before the system reset in EXIT_FATAL. */
  const FATAL_DELAY_MS: nat := 100

  /** Options set on every packet: broadcast address, one retry, delay (0, 0, 2). */
  const TX_ADDR: uint32 := 0xFF
  const TX_RETRY: uint8 := 0x1
  const TX_DELAY_MIN: uint16 := 0
  const TX_DELAY_MAX: uint16 := 0
  const TX_DELAY_REPEAT: uint16 := 2

  /** Result of a transmit request: success flag and completion token. */
  datatype ApiRet = ApiRet(success: bool, value: uint32)

  datatype TxRequest = TxRequest(
    dest: uint32, retry: uint8,
    delayMin: uint16, delayMax: uint16, delayRepeat: uint16,
    payload: seq<byte>)

  /** What the controller asks of the radio and the power manager. */
  datatype Effect =
    | Transmit(req: TxRequest)
    | Sleep(durMs: uint32, flag: bool)   // the_twelite.sleep(duration, flag)
    | Delay(ms: nat)
    | ResetSystem

  /** A value random() may return for the sleep window (bounds inclusive). */
  type SleepDraw = d: uint32 | SleepWindowLow() <= d <= SleepWindowHigh() witness SLEEP_DUR

  /** What the outside world answers during one loop() call. */
  datatype Env = Env(
    tickAvailable: bool,       // TickTimer.available()
    btnState: bv32,            // Buttons.read: current button bits
    changeMask: bv32,          // Buttons.read: change mask
    packetReady: bool,         // prepare_tx_packet() produced a packet
    sendResult: ApiRet,        // pkt.transmit()
    millisAtPayload: uint32,   // millis() stored in the payload
    millisAtRequest: uint32,   // millis() stored after a successful request
    completed: set<uint32>,    // tokens tx_status.is_complete reports done
    millisAtWait: uint32,      // millis() compared in WAIT_TX
    sleepDraw: SleepDraw)      // random(SLEEP_DUR - TERMOR, SLEEP_DUR + TERMOR)

  /** The controller's globals: eState, dummy_work_count, txreq_stat, u32millis_tx, state. */
  datatype Cycle = Cycle(
    eState: EState,
    dummyWorkCount: int,
    txreqStat: ApiRet,
    millisTx: uint32,
    pressed: bool)

  datatype StepResult = StepResult(next: Cycle, loopMore: bool, out: seq<Effect>)

  /** Outcome of one or more passes: final globals, states dispatched on, effects in order. */
  datatype RunResult = RunResult(final: Cycle, trace: seq<EState>, out: seq<Effect>)

  /** check_button as written: `a` is the negated bit 31 of the change mask and
      `b` the LOGICAL and of the button word with the pin mask. */
  function CheckButton(btnState: bv32, changeMask: bv32): (pressed: bool)
    ensures pressed <==> (changeMask >> 31) == 1 && btnState == 0
  {
    var a := changeMask & 0x8000_0000 == 0;
    var b := btnState != 0 && PinMask() != 0;
    !a && !b
  }

  /** The message TX sends for a given button reading. */
  function Message(pressed: bool): (msg: string)
    ensures IsMessage(msg) && |msg| == MSG_LEN - 1
  {
    if pressed then MSG0 else MSG1
  }

  /** The packet vTransmit prepares for a message and a timestamp. */
  function Request(msg: string, timestamp: uint32): (req: TxRequest)
    requires IsMessage(msg)
    ensures |req.payload| == PAYLOAD_LEN
  {
    TxRequest(TX_ADDR, TX_RETRY, TX_DELAY_MIN, TX_DELAY_MAX, TX_DELAY_REPEAT,
              Layout(msg, timestamp))
  }

  /** vTransmit: the returned request status and the effects issued. */
  function TransmitOutcome(msg: string, env: Env): (r: (ApiRet, seq<Effect>))
    requires IsMessage(msg)
    ensures |r.1| <= 1
    ensures r.0.success ==> |r.1| == 1
  {
    if env.packetReady then
      (env.sendResult, [Transmit(Request(msg, env.millisAtPayload))])
    else
      (ApiRet(false, 0), [])
  }

  /** SleepNow: sleep for the drawn duration, second argument `false`. */
  function SleepRequest(draw: SleepDraw): (e: Effect)
    ensures e.Sleep? && !e.flag
    ensures SleepWindowLow() <= e.durMs <= SleepWindowHigh()
  {
    Sleep(draw, false)
  }

  /** One pass of the switch in loop(). Every transition moves forward in
      the enumeration, strictly so when it asks for another pass, and the
      two exit states stay where they are. */
  function Step(c: Cycle, env: Env): (r: StepResult)
    ensures Ordinal(r.next.eState) >= Ordinal(c.eState)
    ensures r.loopMore ==> Ordinal(r.next.eState) > Ordinal(c.eState)
    ensures c.eState in {ExitNormal, ExitFatal} ==> r.next == c && !r.loopMore
  {
    match c.eState
    case Init =>
      StepResult(c.(eState := WorkJob, dummyWorkCount := WORK_COUNT), true, [])
    case WorkJob =>
      if env.tickAvailable then
        var n := c.dummyWorkCount - 1;
        if n == 0 then StepResult(c.(eState := Tx, dummyWorkCount := n), true, [])
        else StepResult(c.(dummyWorkCount := n), false, [])
      else
        StepResult(c, false, [])
    case Tx =>
      var pressed := CheckButton(env.btnState, env.changeMask);
      var (ret, out) := TransmitOutcome(Message(pressed), env);
      if ret.success then
        StepResult(c.(pressed := pressed, txreqStat := ret, millisTx := env.millisAtRequest,
                      eState := WaitTx), true, out)
      else
        StepResult(c.(pressed := pressed, txreqStat := ret, eState := ExitFatal), true, out)
    case WaitTx =>
      if c.txreqStat.value in env.completed then
        StepResult(c.(eState := ExitNormal), false, [])
      else if Sub32(env.millisAtWait, c.millisTx) > TX_TIMEOUT_MS then
        StepResult(c.(eState := ExitFatal), true, [])
      else
        StepResult(c, false, [])
    case ExitNormal =>
      StepResult(c, false, [SleepRequest(env.sleepDraw)])
    case ExitFatal =>
      StepResult(c, false, [Delay(FATAL_DELAY_MS), ResetSystem])
  }

  /** One loop() call: passes of the switch until one leaves loop_more clear.
      It visits states in strictly increasing order, starting with the
      current one, so it makes at most 6 - Ordinal(c.eState) passes. */
  function RunLoop(c: Cycle, env: Env): (r: RunResult)
    decreases 5 - Ordinal(c.eState)
    ensures 1 <= |r.trace| <= 6 - Ordinal(c.eState)
    ensures r.trace[0] == c.eState
    ensures Ordinal(r.final.eState) >= Ordinal(c.eState)
    ensures forall i, j :: 0 <= i < j < |r.trace| ==> Ordinal(r.trace[i]) < Ordinal(r.trace[j])
  {
    var s := Step(c, env);
    if s.loopMore then
      var rest := RunLoop(s.next, env);
      RunResult(rest.final, [c.eState] + rest.trace, s.out + rest.out)
    else
      RunResult(s.next, [c.eState], s.out)
  }

  /** Successive loop() calls, one per Env, with no wake-up in between. */
  function RunCalls(c: Cycle, envs: seq<Env>): (r: RunResult)
    decreases |envs|
    ensures Ordinal(r.final.eState) >= Ordinal(c.eState)
  {
    if envs == [] then RunResult(c, [], [])
    else
      var first := RunLoop(c, envs[0]);
      var rest := RunCalls(first.final, envs[1..]);
      RunResult(rest.final, first.trace + rest.trace, first.out + rest.out)
  }

  /** wakeup(): the state returns to INIT; nothing else changes. */
  function Wake(c: Cycle): (r: Cycle)
    ensures r.eState == Init
    ensures r.(eState := c.eState) == c
  {
    c.(eState := Init)
  }

  /** Values of the globals at cold boot: zero-initialised, txreq_stat set in setup(). */
  function Boot(): (c: Cycle)
    ensures c.eState == Init && !c.txreqStat.success
  {
    Cycle(Init, 0, ApiRet(false, 0), 0, false)
  }

  /** Facts that hold of every reachable state: while working, the counter
      stays within 1..WORK_COUNT; while waiting, the request succeeded. */
  predicate Inv(c: Cycle) {
    && (c.eState == WorkJob ==> 1 <= c.dummyWorkCount <= WORK_COUNT)
    && (c.eState == WaitTx ==> c.txreqStat.success)
  }

  /** Number of transmit requests among some effects. */
  function Transmissions(out: seq<Effect>): (n: nat)
    ensures n == 0 <==> forall i :: 0 <= i < |out| ==> !out[i].Transmit?
  {
    if out == [] then 0
    else (if out[0].Transmit? then 1 else 0) + Transmissions(out[1..])
  }

  /** Number of loop() calls on which the tick timer was available. */
  function Ticks(envs: seq<Env>): (n: nat)
    ensures n <= |envs|
    ensures n == 0 <==> forall i :: 0 <= i < |envs| ==> !envs[i].tickAvailable
    ensures n == |envs| <==> forall i :: 0 <= i < |envs| ==> envs[i].tickAvailable
  {
    if envs == [] then 0
    else (if envs[0].tickAvailable then 1 else 0) + Ticks(envs[1..])
  }
}
