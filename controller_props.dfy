/**
  Properties of the cycle controller: what each state does in one pass,
  how loop_more chains passes, the countdown in WORK_JOB, the timeout in
  WAIT_TX, the invariant of reachable states and the single transmission
  per cycle.
 */
module ControllerProps {
  import opened Common
  import opened Payload
  import opened Controller

  // ---------------------------------------------------------------------
  // One pass of the switch, state by state

  /** INIT loads the counter, moves to WORK_JOB and asks for another pass. */
  lemma InitStep(c: Cycle, env: Env)
    requires c.eState == Init
    ensures Step(c, env) == StepResult(c.(eState := WorkJob, dummyWorkCount := WORK_COUNT), true, [])
  {
  }

  /** WORK_JOB decrements the counter once if and only if the tick timer is
      available, and moves on to TX, asking for another pass, exactly when
      the counter reaches zero. */
  lemma WorkJobStep(c: Cycle, env: Env)
    requires c.eState == WorkJob
    ensures var r := Step(c, env);
      && r.next.dummyWorkCount == c.dummyWorkCount - (if env.tickAvailable then 1 else 0)
      && r.next.(eState := WorkJob, dummyWorkCount := c.dummyWorkCount) == c
      && (r.next.eState == Tx <==> env.tickAvailable && c.dummyWorkCount == 1)
      && (r.next.eState != Tx ==> r.next.eState == WorkJob)
      && r.loopMore == (r.next.eState == Tx)
      && r.out == []
  {
  }

  /** TX samples the button, sends MSG0 if it reads as pressed and MSG1
      otherwise, and ends in exactly one of WAIT_TX (request accepted, send
      time recorded) or EXIT_FATAL (request refused), asking for another
      pass either way. */
  lemma TxStep(c: Cycle, env: Env)
    requires c.eState == Tx
    ensures var r := Step(c, env);
      var pressed := CheckButton(env.btnState, env.changeMask);
      var msg := if pressed then MSG0 else MSG1;
      var ok := env.packetReady && env.sendResult.success;
      && r.loopMore
      && r.next.pressed == pressed
      && (r.next.eState == WaitTx || r.next.eState == ExitFatal)
      && (r.next.eState == WaitTx <==> ok)
      && (ok ==> r.next.millisTx == env.millisAtRequest && r.next.txreqStat == env.sendResult)
      && (!ok ==> r.next == c.(eState := ExitFatal, pressed := pressed,
                                txreqStat := if env.packetReady then env.sendResult else ApiRet(false, 0)))
      && r.next.dummyWorkCount == c.dummyWorkCount
      && r.out == (if env.packetReady then [Transmit(Request(msg, env.millisAtPayload))] else [])
  {
  }

  /** A request TX sends is a broadcast with one retry whose payload reads
      back as the chosen message and the payload timestamp. */
  lemma TxPayloadReadsBack(c: Cycle, env: Env)
    requires c.eState == Tx && env.packetReady
    ensures var pressed := CheckButton(env.btnState, env.changeMask);
      var out := Step(c, env).out;
      && |out| == 1 && out[0].Transmit?
      && out[0].req.dest == 0xFF && out[0].req.retry == 1
      && Parse(out[0].req.payload)
         == Some(Received(if pressed then MSG0 else MSG1, env.millisAtPayload))
  {
    var pressed := CheckButton(env.btnState, env.changeMask);
    ParseLayout(Message(pressed), env.millisAtPayload);
  }

  /** WAIT_TX checks completion first: a completed request ends the cycle
      normally without another pass; otherwise more than 100 ms since the
      request, counted in wrapping uint32 arithmetic, is fatal and asks for
      another pass; otherwise nothing changes. */
  lemma WaitTxStep(c: Cycle, env: Env)
    requires c.eState == WaitTx
    ensures var r := Step(c, env);
      var done := c.txreqStat.value in env.completed;
      var late := Sub32(env.millisAtWait, c.millisTx) as int > 100;
      && r.out == []
      && (r.next.eState == ExitNormal <==> done)
      && (r.next.eState == ExitFatal <==> !done && late)
      && (r.next.eState == WaitTx <==> !done && !late)
      && r.loopMore == (!done && late)
      && r.next.(eState := WaitTx) == c
  {
  }

  /** Completion observed 50 ms after the request ends the cycle normally;
      no completion 150 ms after it is fatal; both hold across a wrap of
      the millisecond clock. */
  lemma WaitTxScenarios(c: Cycle, env: Env)
    requires c.eState == WaitTx
    ensures env.millisAtWait == Wrap32(c.millisTx as int + 50) && c.txreqStat.value in env.completed
            ==> RunLoop(c, env).final.eState == ExitNormal
    ensures env.millisAtWait == Wrap32(c.millisTx as int + 150) && c.txreqStat.value !in env.completed
            ==> RunLoop(c, env).final.eState == ExitFatal
    ensures env.millisAtWait == Wrap32(c.millisTx as int + 100) && c.txreqStat.value !in env.completed
            ==> RunLoop(c, env).final == c
  {
    WaitTxStep(c, env);
    var r := Step(c, env);
    if r.loopMore {
      assert RunLoop(c, env).final == RunLoop(r.next, env).final;
    }
  }

  /** A completion seen in WAIT_TX ends the cycle normally however long
      ago the request was made: the timeout is only tested when no
      completion is reported. */
  lemma LateCompletionIsNormal(c: Cycle, env: Env)
    requires c.eState == WaitTx && c.txreqStat.value in env.completed
    ensures RunLoop(c, env) == RunResult(c.(eState := ExitNormal), [WaitTx], [])
    ensures env.millisAtWait == Wrap32(c.millisTx as int + 150)
            ==> Sub32(env.millisAtWait, c.millisTx) > TX_TIMEOUT_MS
  {
    WaitTxStep(c, env);
  }

  /** The two exit states change nothing and stop the loop: EXIT_NORMAL asks
      to sleep for exactly SLEEP_DUR, second argument `false` (the tolerance
      is zero), EXIT_FATAL waits 100 ms and resets the system. */
  lemma ExitSteps(c: Cycle, env: Env)
    ensures c.eState == ExitNormal
            ==> RunLoop(c, env) == RunResult(c, [ExitNormal], [Sleep(SLEEP_DUR, false)])
    ensures c.eState == ExitFatal
            ==> RunLoop(c, env) == RunResult(c, [ExitFatal], [Delay(100), ResetSystem])
  {
    SleepWindowNoWrap();
  }

  /** Every sleep the controller requests lies within SLEEP_DUR +/- SLEEP_DUR_TERMOR. */
  lemma SleepWithinWindow(draw: SleepDraw)
    ensures var e := SleepRequest(draw);
      SLEEP_DUR as int - SLEEP_DUR_TERMOR as int <= e.durMs as int <= SLEEP_DUR as int + SLEEP_DUR_TERMOR as int
    ensures SleepRequest(draw) == Sleep(SLEEP_DUR, false)
  {
    SleepWindowNoWrap();
  }

  // ---------------------------------------------------------------------
  // loop_more and the do/while loop

  /** loop_more is set only along INIT -> WORK_JOB -> TX -> WAIT_TX | EXIT_FATAL
      and WAIT_TX -> EXIT_FATAL. */
  lemma LoopMoreEdges(c: Cycle, env: Env)
    ensures var r := Step(c, env);
      r.loopMore ==>
        ((c.eState, r.next.eState) in
           {(Init, WorkJob), (WorkJob, Tx), (Tx, WaitTx), (Tx, ExitFatal), (WaitTx, ExitFatal)})
  {
  }

  /** The do/while in one step: a pass that sets loop_more is followed by
      the rest of the call; one that clears it ends the call. */
  lemma RunLoopUnfold(c: Cycle, env: Env)
    ensures var s := Step(c, env); var r := RunLoop(c, env);
      && (s.loopMore ==> r.final == RunLoop(s.next, env).final && r.out == s.out + RunLoop(s.next, env).out)
      && (!s.loopMore ==> r.final == s.next && r.out == s.out)
  {
  }

  /** Part way through a loop() call that began in `start`: `done` has been
      issued and the passes still to come begin in `cur`. */
  predicate Pending(start: Cycle, cur: Cycle, done: seq<Effect>, env: Env) {
    && RunLoop(start, env).final == RunLoop(cur, env).final
    && RunLoop(start, env).out == done + RunLoop(cur, env).out
  }

  /** A loop() call that began in `start` has ended in `cur` after issuing `done`. */
  predicate Finished(start: Cycle, cur: Cycle, done: seq<Effect>, env: Env) {
    cur == RunLoop(start, env).final && done == RunLoop(start, env).out
  }

  /** One more pass keeps the call pending while it sets loop_more and
      finishes it otherwise. */
  lemma PassAdvances(start: Cycle, cur: Cycle, done: seq<Effect>, env: Env)
    requires Pending(start, cur, done, env)
    ensures var s := Step(cur, env);
      && (s.loopMore ==> Pending(start, s.next, done + s.out, env))
      && (!s.loopMore ==> Finished(start, s.next, done + s.out, env))
  {
    var s := Step(cur, env);
    var r := RunLoop(cur, env);
    if s.loopMore {
      var rn := RunLoop(s.next, env);
      assert r.final == rn.final && r.out == s.out + rn.out;
      assert done + (s.out + rn.out) == (done + s.out) + rn.out;
    } else {
      assert r.final == s.next && r.out == s.out;
    }
  }

  /** The loop invariant of loop(): effects issued so far are `done`, the
      call is pending or finished as loop_more says, and the reachable-state
      invariant carries over from the start of the call. */
  predicate LoopInv(start: Cycle, e0: seq<Effect>, cur: Cycle, effects: seq<Effect>,
                    done: seq<Effect>, loopMore: bool, env: Env) {
    && effects == e0 + done
    && (loopMore ==> Pending(start, cur, done, env))
    && (!loopMore ==> Finished(start, cur, done, env))
    && (Inv(start) ==> Inv(cur))
  }

  lemma LoopInvPass(start: Cycle, e0: seq<Effect>, cur: Cycle, effects: seq<Effect>,
                    done: seq<Effect>, env: Env)
    requires LoopInv(start, e0, cur, effects, done, true, env)
    ensures var s := Step(cur, env);
      LoopInv(start, e0, s.next, effects + s.out, done + s.out, s.loopMore, env)
  {
    var s := Step(cur, env);
    PassAdvances(start, cur, done, env);
    assert effects + s.out == e0 + (done + s.out);
    if Inv(start) {
      StepPreservesInv(cur, env);
    }
  }

  /** A loop() call that starts in TX makes at most three passes and never
      makes the fourth: TX, then WAIT_TX possibly, then EXIT_FATAL possibly. */
  lemma TxCallBound(c: Cycle, env: Env)
    requires c.eState == Tx
    ensures var r := RunLoop(c, env);
      r.trace in {[Tx, ExitFatal], [Tx, WaitTx], [Tx, WaitTx, ExitFatal]}
  {
    var s := Step(c, env);
    TxStep(c, env);
    var d := s.next;
    assert RunLoop(c, env).trace == [Tx] + RunLoop(d, env).trace;
    if d.eState == WaitTx {
      WaitTxStep(d, env);
      var s2 := Step(d, env);
      if s2.loopMore {
        ExitSteps(s2.next, env);
        assert RunLoop(d, env).trace == [WaitTx, ExitFatal];
        assert RunLoop(c, env).trace == [Tx, WaitTx, ExitFatal];
      } else {
        assert RunLoop(d, env).trace == [WaitTx];
        assert RunLoop(c, env).trace == [Tx, WaitTx];
      }
    } else {
      ExitSteps(d, env);
      assert RunLoop(d, env).trace == [ExitFatal];
      assert RunLoop(c, env).trace == [Tx, ExitFatal];
    }
  }

  /** A failed request ends the call in EXIT_FATAL, which resets the system
      in the same call; WAIT_TX is never entered. */
  lemma TxFailureIsFatal(c: Cycle, env: Env)
    requires c.eState == Tx && !(env.packetReady && env.sendResult.success)
    ensures var r := RunLoop(c, env);
      && r.trace == [Tx, ExitFatal]
      && r.final.eState == ExitFatal
      && |r.out| >= 2 && r.out[|r.out| - 2..] == [Delay(100), ResetSystem]
  {
    TxStep(c, env);
    var s := Step(c, env);
    ExitSteps(s.next, env);
    var tail := RunLoop(s.next, env).out;
    assert RunLoop(c, env).out == s.out + tail;
    assert (s.out + tail)[|s.out + tail| - 2..] == tail;
  }

  /** The first loop() call after a wake-up always reaches WORK_JOB with the
      counter loaded, and counts the first tick if one is available. */
  lemma FirstCallAfterWake(c: Cycle, env: Env)
    ensures RunLoop(Wake(c), env) == RunResult(
      c.(eState := WorkJob, dummyWorkCount := if env.tickAvailable then WORK_COUNT - 1 else WORK_COUNT),
      [Init, WorkJob], [])
  {
    var w := Wake(c);
    InitStep(w, env);
    WorkJobStep(Step(w, env).next, env);
  }

  /** In one loop() call the counter is decremented at most once, and only
      when the tick timer is available. */
  lemma CounterDecrementsAtMostOnce(c: Cycle, env: Env)
    requires c.eState != Init
    decreases 5 - Ordinal(c.eState)
    ensures RunLoop(c, env).final.dummyWorkCount
            == c.dummyWorkCount - (if c.eState == WorkJob && env.tickAvailable then 1 else 0)
  {
    var s := Step(c, env);
    if s.loopMore {
      // the next pass starts beyond WORK_JOB, where the counter is never written
      var d := s.next;
      assert Ordinal(d.eState) >= 2;
      assert d.dummyWorkCount == c.dummyWorkCount - (if c.eState == WorkJob && env.tickAvailable then 1 else 0);
      CounterDecrementsAtMostOnce(d, env);
    }
  }

  // ---------------------------------------------------------------------
  // Successive loop() calls

  /** While WORK_JOB has seen fewer ticks than its counter, it stays in
      WORK_JOB with the counter lowered by the number of ticks, and does
      nothing else. */
  lemma {:induction false} WorkJobCountdown(c: Cycle, envs: seq<Env>)
    requires c.eState == WorkJob && Ticks(envs) < c.dummyWorkCount
    ensures RunCalls(c, envs).final == c.(dummyWorkCount := c.dummyWorkCount - Ticks(envs))
    ensures RunCalls(c, envs).out == []
    decreases |envs|
  {
    if envs != [] {
      WorkJobStep(c, envs[0]);
      var first := RunLoop(c, envs[0]);
      assert first.final == c.(dummyWorkCount := c.dummyWorkCount - (if envs[0].tickAvailable then 1 else 0));
      WorkJobCountdown(first.final, envs[1..]);
    }
  }

  /** The tick that brings the counter to zero moves the controller on to
      TX within the same loop() call, so WORK_JOB needs exactly as many
      ticks as its counter holds. */
  lemma NthTickReachesTx(c: Cycle, envs: seq<Env>, env: Env)
    requires c.eState == WorkJob && Ticks(envs) == c.dummyWorkCount - 1 && env.tickAvailable
    ensures var before := RunCalls(c, envs).final;
      && before.eState == WorkJob && before.dummyWorkCount == 1
      && RunLoop(before, env).trace[..2] == [WorkJob, Tx]
  {
    WorkJobCountdown(c, envs);
    var before := RunCalls(c, envs).final;
    WorkJobStep(before, env);
  }

  /** Starting from a counter of 100: after 99 ticks the state is still
      WORK_JOB, and the 100th tick reaches TX in the same call. */
  lemma HundredTicks(c: Cycle, envs: seq<Env>, env: Env)
    requires c.eState == WorkJob && c.dummyWorkCount == WORK_COUNT
    requires Ticks(envs) == 99 && env.tickAvailable
    ensures RunCalls(c, envs).final.eState == WorkJob
    ensures Tx in RunLoop(RunCalls(c, envs).final, env).trace
  {
    NthTickReachesTx(c, envs, env);
  }

  // ---------------------------------------------------------------------
  // Reachable states

  lemma BootAndWakeEstablishInv(c: Cycle)
    ensures Inv(Boot()) && Inv(Wake(c))
  {
  }

  lemma StepPreservesInv(c: Cycle, env: Env)
    requires Inv(c)
    ensures Inv(Step(c, env).next)
  {
  }

  lemma {:induction false} RunLoopPreservesInv(c: Cycle, env: Env)
    requires Inv(c)
    ensures Inv(RunLoop(c, env).final)
    decreases 5 - Ordinal(c.eState)
  {
    StepPreservesInv(c, env);
    var s := Step(c, env);
    if s.loopMore {
      RunLoopPreservesInv(s.next, env);
    }
  }

  lemma {:induction false} RunCallsPreservesInv(c: Cycle, envs: seq<Env>)
    requires Inv(c)
    ensures Inv(RunCalls(c, envs).final)
    decreases |envs|
  {
    if envs != [] {
      RunLoopPreservesInv(c, envs[0]);
      RunCallsPreservesInv(RunLoop(c, envs[0]).final, envs[1..]);
    }
  }

  // ---------------------------------------------------------------------
  // One transmission per cycle

  lemma {:induction false} TransmissionsAppend(a: seq<Effect>, b: seq<Effect>)
    ensures Transmissions(a + b) == Transmissions(a) + Transmissions(b)
  {
    if a == [] {
      assert a + b == b;
    } else {
      assert (a + b)[0] == a[0];
      assert (a + b)[1..] == a[1..] + b;
      TransmissionsAppend(a[1..], b);
    }
  }

  /** 1 while the TX state is still ahead of the controller, 0 once it is past. */
  function TxAhead(s: EState): (n: nat)
    ensures n == 1 <==> s in {Init, WorkJob, Tx}
    ensures n == 0 <==> s in {WaitTx, ExitNormal, ExitFatal}
  {
    if Ordinal(s) <= Ordinal(Tx) then 1 else 0
  }

  /** A pass transmits only in TX, which it then leaves for good. */
  lemma StepTransmissions(c: Cycle, env: Env)
    ensures Transmissions(Step(c, env).out) + TxAhead(Step(c, env).next.eState) <= TxAhead(c.eState)
  {
    var s := Step(c, env);
    if c.eState == Tx {
      TxStep(c, env);
    }
    assert c.eState == ExitNormal ==> s.out == [SleepRequest(env.sleepDraw)];
    assert c.eState == ExitFatal ==> s.out == [Delay(FATAL_DELAY_MS), ResetSystem];
  }

  lemma {:induction false} RunLoopTransmissions(c: Cycle, env: Env)
    ensures Transmissions(RunLoop(c, env).out) + TxAhead(RunLoop(c, env).final.eState) <= TxAhead(c.eState)
    decreases 5 - Ordinal(c.eState)
  {
    var s := Step(c, env);
    StepTransmissions(c, env);
    if s.loopMore {
      RunLoopTransmissions(s.next, env);
      TransmissionsAppend(s.out, RunLoop(s.next, env).out);
    }
  }

  /** Between two wake-ups the controller issues at most one transmit request. */
  lemma {:induction false} AtMostOneTransmission(c: Cycle, envs: seq<Env>)
    ensures Transmissions(RunCalls(c, envs).out) + TxAhead(RunCalls(c, envs).final.eState) <= TxAhead(c.eState)
    ensures Transmissions(RunCalls(c, envs).out) <= 1
    decreases |envs|
  {
    if envs != [] {
      var first := RunLoop(c, envs[0]);
      RunLoopTransmissions(c, envs[0]);
      AtMostOneTransmission(first.final, envs[1..]);
      TransmissionsAppend(first.out, RunCalls(first.final, envs[1..]).out);
    }
  }

  // ---------------------------------------------------------------------
  // check_button as written

  /** Because `btn_state && (1UL << PIN_BTN)` is a logical and with a
      nonzero mask, the pin's own bit plays no part: any two nonzero button
      words give the same answer, and a word whose pin bit is clear but
      which has another bit set never reads as pressed. */
  lemma CheckButtonIgnoresPinBit(x: bv32, y: bv32, m: bv32)
    requires x != 0 && y != 0
    ensures CheckButton(x, m) == CheckButton(y, m) == false
    ensures (1 as bv32) & PinMask() == 0 && !CheckButton(1, 0x8000_0000)
  {
  }
}
