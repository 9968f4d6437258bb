/**
  The application of extension-unit-TWELITE.cpp as an object: its globals
  are fields, wakeup(), loop(), check_button(), vTransmit() and SleepNow()
  are methods that update them, and what it asks of the radio and the
  power manager is appended to `effects`. Each method is proved to agree
  with the functions of module Controller.
 */
module App {
  import opened Common
  import opened Payload
  import opened Controller
  import opened ControllerProps

  class ExtensionUnit {
    var eState: EState
    var txreqStat: ApiRet
    var u32MillisTx: uint32
    var dummyWorkCount: int
    var state: bool
    /** Requests issued to the radio and the power manager, oldest first. */
    var effects: seq<Effect>

    /** The globals as one value. */
    function Snapshot(): (c: Cycle)
      reads this
    {
      Cycle(eState, dummyWorkCount, txreqStat, u32MillisTx, state)
    }

    predicate Valid()
      reads this
    {
      Inv(Snapshot())
    }

    /** Cold boot: globals zero-initialised, txreq_stat cleared by setup(). */
    constructor ()
      ensures Snapshot() == Boot() && effects == []
      ensures Valid()
    {
      eState := Init;
      dummyWorkCount := 0;
      u32MillisTx := 0;
      state := false;
      txreqStat := ApiRet(false, 0);
      effects := [];
    }

    /** wakeup(): restart the cycle from INIT, whatever the state was. */
    method Wakeup()
      modifies this`eState
      ensures eState == Init
      ensures Snapshot() == Wake(old(Snapshot()))
      ensures Valid()
    {
      eState := Init;
    }

    /** check_button(): sample the button words and set `state`. */
    method CheckButton(btnState: bv32, changeMask: bv32)
      modifies this`state
      ensures state <==> (changeMask >> 31) == 1 && btnState == 0
      ensures state == Controller.CheckButton(btnState, changeMask)
    {
      var a := changeMask & 0x8000_0000 == 0;
      var b := btnState != 0 && PinMask() != 0;
      if !a && !b {
        state := true;
      } else {
        state := false;
      }
    }

    /** vTransmit(): prepare and send a packet, or report failure. */
    method VTransmit(msg: string, env: Env) returns (ret: ApiRet)
      requires IsMessage(msg)
      modifies this`effects
      ensures !env.packetReady ==> ret == ApiRet(false, 0) && effects == old(effects)
      ensures env.packetReady ==> ret == env.sendResult
      ensures env.packetReady ==> effects == old(effects) + [Transmit(Request(msg, env.millisAtPayload))]
    {
      if env.packetReady {
        var req := TxRequest(TX_ADDR, TX_RETRY, TX_DELAY_MIN, TX_DELAY_MAX, TX_DELAY_REPEAT,
                             Layout(msg, env.millisAtPayload));
        effects := effects + [Transmit(req)];
        ret := env.sendResult;
        return;
      }
      ret := ApiRet(false, 0);
    }

    /** SleepNow(): sleep for a duration drawn from the window. */
    method SleepNow(draw: SleepDraw)
      modifies this`effects
      ensures effects == old(effects) + [SleepRequest(draw)]
      ensures effects[|effects| - 1] == Sleep(SLEEP_DUR, false)
    {
      SleepWindowNoWrap();
      var u16dur: uint32 := SLEEP_DUR;
      u16dur := draw;
      effects := effects + [Sleep(u16dur, false)];
    }

    /** One pass of the switch in loop(); the result is loop_more. */
    method Dispatch(env: Env) returns (loopMore: bool)
      modifies this
      ensures var s := Step(old(Snapshot()), env);
        Snapshot() == s.next && loopMore == s.loopMore && effects == old(effects) + s.out
      ensures old(Valid()) ==> Valid()
    {
      ghost var c0 := Snapshot();
      if Valid() {
        StepPreservesInv(c0, env);
      }
      loopMore := false;
      match eState {
        case Init =>
          eState := WorkJob;
          loopMore := true;
          dummyWorkCount := WORK_COUNT;
        case WorkJob =>
          if env.tickAvailable {
            dummyWorkCount := dummyWorkCount - 1;
            if dummyWorkCount == 0 {
              eState := Tx;
              loopMore := true;
            }
          }
        case Tx =>
          CheckButton(env.btnState, env.changeMask);
          if state {
            txreqStat := VTransmit(MSG0, env);
          } else {
            txreqStat := VTransmit(MSG1, env);
          }
          if txreqStat.success {
            u32MillisTx := env.millisAtRequest;
            eState := WaitTx;
            loopMore := true;
          } else {
            eState := ExitFatal;
            loopMore := true;
          }
        case WaitTx =>
          if txreqStat.value in env.completed {
            eState := ExitNormal;
          } else if Sub32(env.millisAtWait, u32MillisTx) > TX_TIMEOUT_MS {
            eState := ExitFatal;
            loopMore := true;
          }
        case ExitNormal =>
          SleepNow(env.sleepDraw);
        case ExitFatal =>
          effects := effects + [Delay(FATAL_DELAY_MS), ResetSystem];
      }
    }

    /** loop(): repeat the switch while a pass sets loop_more. */
    method Loop(env: Env)
      modifies this
      ensures Snapshot() == RunLoop(old(Snapshot()), env).final
      ensures effects == old(effects) + RunLoop(old(Snapshot()), env).out
      ensures old(Valid()) ==> Valid()
    {
      ghost var start := Snapshot();
      ghost var done: seq<Effect> := [];
      ghost var e0 := effects;
      var loopMore := true;
      while loopMore
        invariant LoopInv(start, e0, Snapshot(), effects, done, loopMore, env)
        decreases if loopMore then 6 - Ordinal(eState) else 0
      {
        ghost var before := Snapshot();
        ghost var issued := effects;
        loopMore := Dispatch(env);
        LoopInvPass(start, e0, before, issued, done, env);
        done := done + Step(before, env).out;
      }
    }
  }
}
