# TWELITE extension unit: cycle controller

A model of the application loop of a battery-powered TWELITE sensor node.
On every wake-up the node starts a cycle from `INIT`. `WORK_JOB` counts a
dummy work counter down from 100, one step per tick of the tick timer. `TX`
samples the button and broadcasts one of two 10-byte messages followed by a
4-byte timestamp. `WAIT_TX` checks on each `loop()` call whether the radio
reports the request complete. If it does, the cycle moves on normally,
however late that is. If it does not and more than 100 ms have elapsed
since the request, it goes to `EXIT_FATAL`. The cycle then ends in `EXIT_NORMAL`, which puts the node to sleep
for one hour, or in `EXIT_FATAL`, which resets the system.

Files:

- `common.dfy` (module `Common`): the constants and the `E_STATE` enumeration
  of `Common.h`. It also holds the `uint32_t` arithmetic the controller
  depends on: wrap-around subtraction and the sleep-window bounds.
- `payload.dfy` (module `Payload`): the two messages and the payload that
  `vTransmit` builds. The payload is the first `MSG_LEN` bytes of the
  message's C string, then the timestamp. A parser reads both parts back.
- `controller.dfy` (module `Controller`): the controller as pure functions.
  `Step` is one pass of the `switch` in `loop()`. `RunLoop` is the
  `do { … } while (loop_more)` around it. `RunCalls` is a series of `loop()`
  calls. `Wake` is `wakeup()`.
- `controller_props.dfy` (module `ControllerProps`): lemmas about those
  functions. They cover each state's pass, the `loop_more` chain and its
  bound, the countdown, the timeout, the reachable-state invariant, and at
  most one transmission per cycle.
- `app.dfy` (module `App`): class `ExtensionUnit`. Its fields are the
  program's globals: `eState`, `dummy_work_count`, `txreq_stat`,
  `u32millis_tx` and `state`, plus a log of effects. Its methods are
  `wakeup()`, `loop()`, `check_button()`, `vTransmit()` and `SleepNow()`.
  `Loop` runs a `while` loop on a mutable `loopMore` flag, and its
  postcondition ties the new fields and effects to `RunLoop`. The
  predicate `Valid()` is the reachable-state invariant `Inv` on the
  fields. The constructor and `Wakeup` establish it, and `Dispatch` and
  `Loop` preserve it.

The outside world comes in through an `Env` value, one per `loop()` call.
It gives:

- whether the tick timer is available;
- the two button words;
- whether a packet could be prepared, and what `transmit()` returned;
- `millis()` at each of its three uses;
- the set of tokens the radio reports complete;
- the value drawn by `random()`.

Everything the controller does to the outside world is an `Effect`:

- `Transmit` carries the fixed options (broadcast `0xFF`, one retry, delay
  `(0, 0, 2)`) and the payload;
- `Sleep(duration, false)`;
- `Delay(100)`;
- `ResetSystem`.

## Model

| member | source | states |
|---|---|---|
| `Common.Ordinal` | Common.h:24-31 | `INIT` has value 0, and every value is below 6. |
| `Common.FromOrdinal` | Common.h:24-31 | A state exists for a number exactly when the number is below 6. |
| `Common.OrdinalRoundTrip` | Common.h:24-31 | The numeric value and the reverse lookup are inverses, so `E_STATE` has exactly six values, in declaration order from `INIT = 0`. |
| `Common.OrdinalInjective` | Common.h:24-31 | Distinct states have distinct numeric values. |
| `Common.Wrap32` | extension-unit-TWELITE.cpp:178-179 | Storing an integer in a `uint32_t` keeps it if it is in range, and otherwise changes it by a multiple of 2^32. |
| `Common.Sub32` | extension-unit-TWELITE.cpp:132 | `a - b` on `uint32_t` is `a - b` when `a >= b`, is `a - b + 2^32` when `a < b`, and always satisfies `b + r ≡ a` (mod 2^32). |
| `Common.SleepDurValue` | Common.h:20 | `SLEEP_DUR` is 3,600,000 ms and fits in a `uint32_t`. |
| `Common.SleepWindowLow` | extension-unit-TWELITE.cpp:179 | The lower bound handed to `random()` is the `uint32_t` value of `SLEEP_DUR - SLEEP_DUR_TERMOR`: adding the tolerance back gives `SLEEP_DUR` modulo 2^32. |
| `Common.SleepWindowHigh` | extension-unit-TWELITE.cpp:179 | The upper bound handed to `random()` is the `uint32_t` value of `SLEEP_DUR + SLEEP_DUR_TERMOR`: subtracting the tolerance gives `SLEEP_DUR` modulo 2^32. |
| `Common.SleepWindowNoWrap` | Common.h:20-21 | `SLEEP_DUR - SLEEP_DUR_TERMOR` and `SLEEP_DUR + SLEEP_DUR_TERMOR` do not wrap in `uint32_t`, and with zero tolerance both equal `SLEEP_DUR`. |
| `Common.PinMask` | Common.h:11 | `1UL << PIN_BTN` is the nonzero mask `0x1000`. |
| `Payload.CString` | extension-unit-TWELITE.cpp:13-15 | A string literal occupies its characters, each nonzero, followed by one NUL byte. |
| `Payload.TextOfCString` | extension-unit-TWELITE.cpp:164-165 | Reading a C string up to its NUL gives back the text. |
| `Payload.EncodeU32` | extension-unit-TWELITE.cpp:166 | The timestamp occupies 4 bytes, most significant first: their base-256 value, first byte highest, is the `millis()` value stored. |
| `Payload.DecodeEncodeU32` | extension-unit-TWELITE.cpp:166 | The 4-byte timestamp decodes to the `millis()` value that was stored. |
| `Payload.EncodeDecodeU32` | extension-unit-TWELITE.cpp:166 | Every 4-byte string is the encoding of the value it decodes to, so the encoding is a bijection. |
| `Payload.Layout` | extension-unit-TWELITE.cpp:164-167 | The payload is always `MSG_LEN + 4` = 14 bytes. |
| `Payload.Parse` | extension-unit-TWELITE.cpp:164-167 | A receiver can read exactly the 14-byte payloads. |
| `Payload.ParseLayout` | extension-unit-TWELITE.cpp:164-167 | A 9-character message and its timestamp are read back unchanged from the payload. |
| `Payload.MessagesFitLayout` | extension-unit-TWELITE.cpp:12-15 | `MSG0` and `MSG1` are 9 ASCII characters (8 of id, 1 of state), so their C strings fill `MSG_LEN` = 10 bytes exactly. They differ only in the state character. |
| `Payload.LayoutsDistinguishMessages` | extension-unit-TWELITE.cpp:12-15 | A payload carrying `MSG0` never equals one carrying `MSG1`, whatever the timestamps. |
| `Controller.CheckButton` | extension-unit-TWELITE.cpp:189-206 | As written, the result is true exactly when bit 31 of `change_mask` is set and `btn_state` is zero. |
| `Controller.Message` | extension-unit-TWELITE.cpp:107-113 | The message `TX` sends is always a valid 9-character message. |
| `Controller.Request` | extension-unit-TWELITE.cpp:157-167 | A prepared packet carries a 14-byte payload. |
| `Controller.TransmitOutcome` | extension-unit-TWELITE.cpp:154-175 | `vTransmit` issues at most one transmission, and it reports success only if it issued one. |
| `Controller.SleepRequest` | extension-unit-TWELITE.cpp:177-183 | `SleepNow` asks to sleep, with `false` as the second argument of `sleep`, for a duration within the window passed to `random()`. |
| `Controller.Step` | extension-unit-TWELITE.cpp:80-148 | Every pass moves forward in the enumeration, strictly so when it sets `loop_more`. `EXIT_NORMAL` and `EXIT_FATAL` change nothing and clear `loop_more`. |
| `Controller.RunLoop` | extension-unit-TWELITE.cpp:79-150 | The `do/while` terminates. It visits states in strictly increasing order, starting with the current one. It makes at most `6 - ordinal` passes and never moves backwards. |
| `Controller.RunCalls` | extension-unit-TWELITE.cpp:74-151 | Without a wake-up in between, `loop()` calls never move the state backwards. |
| `Controller.Wake` | extension-unit-TWELITE.cpp:63-65 | `wakeup()` sets the state to `INIT` and changes nothing else. |
| `Controller.Boot` | extension-unit-TWELITE.cpp:17-28 | At cold boot the state is `INIT` (value 0) and `txreq_stat` holds no successful request. |
| `ControllerProps.InitStep` | extension-unit-TWELITE.cpp:83-88 | `INIT` sets the counter to 100, moves to `WORK_JOB` and sets `loop_more`. |
| `ControllerProps.WorkJobStep` | extension-unit-TWELITE.cpp:90-102 | `WORK_JOB` decrements the counter once exactly when the tick timer is available. It moves to `TX` (setting `loop_more`) exactly when the counter goes from 1 to 0, stays in `WORK_JOB` otherwise, and issues nothing. |
| `ControllerProps.TxStep` | extension-unit-TWELITE.cpp:104-126 | `TX` stores the button result. It sends `MSG0` when that result is true and `MSG1` otherwise. It ends in exactly one of `WAIT_TX` (request succeeded, send time recorded) or `EXIT_FATAL` (request failed), and sets `loop_more` either way. |
| `ControllerProps.TxPayloadReadsBack` | extension-unit-TWELITE.cpp:157-167 | A prepared packet is a broadcast to `0xFF` with one retry, whose payload parses to the chosen message and the payload timestamp. |
| `ControllerProps.WaitTxStep` | extension-unit-TWELITE.cpp:128-137 | Completion is checked first: it leads to `EXIT_NORMAL` without `loop_more`. Otherwise a wrapped elapsed time above 100 ms leads to `EXIT_FATAL` with `loop_more`. Otherwise nothing changes. |
| `ControllerProps.WaitTxScenarios` | extension-unit-TWELITE.cpp:128-137 | Completion at 50 ms ends normally. No completion at 150 ms is fatal. No completion at exactly 100 ms changes nothing. All three hold across a wrap of the millisecond clock. |
| `ControllerProps.LateCompletionIsNormal` | extension-unit-TWELITE.cpp:128-137 | A completion seen in `WAIT_TX` ends the `loop()` call in `EXIT_NORMAL` with nothing else changed, even when more than 100 ms have elapsed, for example 150 ms across a wrap of the clock. |
| `ControllerProps.ExitSteps` | extension-unit-TWELITE.cpp:139-147 | `EXIT_NORMAL` requests `Sleep(3600000, false)`. `EXIT_FATAL` requests `Delay(100)` then a reset. Both leave the state unchanged and stop the loop. |
| `ControllerProps.SleepWithinWindow` | extension-unit-TWELITE.cpp:177-182 | The sleep duration lies within `SLEEP_DUR ± SLEEP_DUR_TERMOR`, and is exactly `SLEEP_DUR` since the tolerance is 0. |
| `ControllerProps.RunLoopUnfold` | extension-unit-TWELITE.cpp:79-150 | A pass that sets `loop_more` is followed by the rest of the call. A pass that clears it ends the call. |
| `ControllerProps.LoopMoreEdges` | extension-unit-TWELITE.cpp:79-150 | `loop_more` is set only on `INIT→WORK_JOB`, `WORK_JOB→TX`, `TX→WAIT_TX`, `TX→EXIT_FATAL` and `WAIT_TX→EXIT_FATAL`. |
| `ControllerProps.TxCallBound` | extension-unit-TWELITE.cpp:104-137 | A call that starts in `TX` passes through exactly TX→EXIT_FATAL, TX→WAIT_TX, or TX→WAIT_TX→EXIT_FATAL. |
| `ControllerProps.TxFailureIsFatal` | extension-unit-TWELITE.cpp:114-147 | A failed request goes straight to `EXIT_FATAL`, never entering `WAIT_TX`, and the reset is requested in the same call. |
| `ControllerProps.FirstCallAfterWake` | extension-unit-TWELITE.cpp:63-102 | The first `loop()` after a wake-up passes `INIT` and then `WORK_JOB`. It leaves the counter at 100, or at 99 if a tick was available. |
| `ControllerProps.CounterDecrementsAtMostOnce` | extension-unit-TWELITE.cpp:90-102 | A `loop()` call decrements the counter at most once, and only while in `WORK_JOB` with a tick available. |
| `ControllerProps.WorkJobCountdown` | extension-unit-TWELITE.cpp:90-102 | While fewer ticks than the counter's value have occurred, the state stays `WORK_JOB`. The counter is lowered by the number of ticks, and nothing is issued. |
| `ControllerProps.NthTickReachesTx` | extension-unit-TWELITE.cpp:90-102 | For any counter value `N ≥ 1`, the `N`-th tick moves on to `TX` within the same `loop()` call. |
| `ControllerProps.HundredTicks` | extension-unit-TWELITE.cpp:87-102 | Starting from 100, the state is still `WORK_JOB` after 99 ticks, and the 100th tick reaches `TX` in that same call. |
| `Controller.Ticks` | extension-unit-TWELITE.cpp:93 | The number of calls on which `TickTimer.available()` held is zero exactly when no call saw a tick, and equals the number of calls exactly when every call saw one. |
| `Controller.Transmissions` | extension-unit-TWELITE.cpp:171 | The number of transmit requests among some effects is zero exactly when none of them is a transmit. |
| `ControllerProps.BootAndWakeEstablishInv` | extension-unit-TWELITE.cpp:63-65 | The cold-boot state and every state right after a wake-up satisfy the reachable-state invariant. |
| `ControllerProps.StepPreservesInv` | extension-unit-TWELITE.cpp:80-148 | Every pass keeps the invariant: the counter stays in 1..100 while in `WORK_JOB`, and the request succeeded while in `WAIT_TX`. |
| `ControllerProps.RunLoopPreservesInv` | extension-unit-TWELITE.cpp:79-150 | Every `loop()` call keeps the invariant. |
| `ControllerProps.RunCallsPreservesInv` | extension-unit-TWELITE.cpp:74-151 | Every series of `loop()` calls keeps the invariant. |
| `ControllerProps.AtMostOneTransmission` | extension-unit-TWELITE.cpp:104-126 | Between two wake-ups, however many `loop()` calls are made, at most one transmit request is issued. |
| `ControllerProps.CheckButtonIgnoresPinBit` | extension-unit-TWELITE.cpp:197 | Because of the logical `&&`, the pin bit plays no part: any nonzero `btn_state` gives false. For example, `btn_state = 1` (pin 12 clear) with bit 31 of the mask set gives false. |
| `App.ExtensionUnit.constructor` | extension-unit-TWELITE.cpp:17-28 | The fields start in the cold-boot state, with no effects issued. |
| `App.ExtensionUnit.Wakeup` | extension-unit-TWELITE.cpp:63-65 | `eState` becomes `INIT` whatever it was, the other fields are unchanged, and the invariant holds. |
| `App.ExtensionUnit.CheckButton` | extension-unit-TWELITE.cpp:189-206 | `state` becomes true exactly when bit 31 of `change_mask` is set and `btn_state == 0`. |
| `App.ExtensionUnit.VTransmit` | extension-unit-TWELITE.cpp:154-175 | With no packet it returns `(false, 0)` and issues nothing. Otherwise it appends one broadcast of the 14-byte payload and returns the transmit result. |
| `App.ExtensionUnit.SleepNow` | extension-unit-TWELITE.cpp:177-183 | It appends one `Sleep` of the drawn duration, which is exactly `SLEEP_DUR`, with `false` as the second argument. |
| `App.ExtensionUnit.Dispatch` | extension-unit-TWELITE.cpp:80-148 | One pass of the `switch` updates the fields, `loop_more` and the effects exactly as `Step` specifies, and keeps `Valid()`. |
| `App.ExtensionUnit.Loop` | extension-unit-TWELITE.cpp:74-151 | The `while (loopMore)` loop terminates. The fields and effects afterwards are those of `RunLoop`, and the invariant is preserved. |

## Notes on the source

- `check_button` (extension-unit-TWELITE.cpp:197) computes
  `btn_state && (1UL << PIN_BTN)`. That is a logical AND with a nonzero
  constant, so `b` is just `btn_state != 0`. The apparent intent is to test
  the button pin's bit, `btn_state & (1UL << PIN_BTN)`. The model keeps the
  expression as written, and `ControllerProps.CheckButtonIgnoresPinBit`
  shows what that means.
- Three details of the code that are easy to misread:
  - The sleep duration is drawn on every `loop()` call made while in
    `EXIT_NORMAL`, not once per cycle.
  - `txreq_stat` keeps its last value after `WAIT_TX`.
  - The timestamp is written by the library routine `pack_bytes`, not in a
    native byte order chosen by the application.
- The model commits to most-significant-byte-first order for the 4-byte
  timestamp, the order the MWX library documents for `pack_bytes`. The
  library itself is not part of this model. The round-trip lemmas would
  hold the same way for the other order.

## Left out

- `setup()` and `begin()`: radio, network, button and analogue
  configuration through the MWX library. The only thing kept from them is
  `txreq_stat = (false, 0)`, in the constructor. `APP_ID`, `CHANNEL`,
  `DEVICE_ID` and `PIN_BTN` are kept as constants. The `FOURCC` macro is
  unused and left out.
- All `Serial` logging: it has no effect on the state.
- The radio stack (`prepare_tx_packet`, `pkt.transmit()`,
  `tx_status.is_complete`) is not modelled; the `Env` supplies its answers:
  - whether a packet could be prepared;
  - the `MWX_APIRET` that `transmit()` returns;
  - the set of completed tokens.
  The packet options are recorded only as constant fields of the request.
- `millis()`, `TickTimer.available()` and `Buttons.read` are parameters.
  `millis()` is taken separately at each of its three uses (payload,
  `u32millis_tx`, the timeout check), because time may pass in between.
- `random()`: the generator is not modelled. The drawn value is a
  parameter of the subset type `SleepDraw`, which assumes the library
  returns a value within its bounds, both inclusive.
- `the_twelite.sleep`, `delay(100)` and `the_twelite.reset_system()` are
  recorded as effects. The model does not stop at a reset: the state stays
  `EXIT_FATAL`, as the code leaves it.
- The commented-out button checks in `wakeup()` and `loop()`, and the
  `pinMode(15, …)` call.
- `dummy_work_count` is an unbounded integer, not a 32-bit `int`.
  `ControllerProps.StepPreservesInv` shows that every reachable state keeps
  it within 1..100 while in `WORK_JOB`, so no overflow arises.
- The second argument of `the_twelite.sleep(u16dur, false)`: its meaning
  belongs to the MWX library, which is not part of this model. The model
  records only that it is `false`, in the field `flag` of `Sleep`. It does
  not model what the sleep does to RAM. `Wake` keeps every global other
  than `eState`, as `wakeup()` does.
- Concurrency: none exists. Interrupt-driven updates of the library's
  state between calls are captured only as different `Env` values from
  call to call.
