/**
  Configuration constants, the application state enumeration and the
  fixed-width unsigned arithmetic the controller relies on (Common.h).
 */
module Common {

  newtype uint8 = x: int | 0 <= x < 0x100
  newtype uint16 = x: int | 0 <= x < 0x1_0000
  newtype uint32 = x: int | 0 <= x < 0x1_0000_0000

  const UINT32_MODULUS: int := 0x1_0000_0000

  datatype Option<T> = None | Some(value: T)

  // Network group and radio settings
  const APP_ID: uint32 := 0x1234abcd
  const CHANNEL: uint8 := 13
  const DEVICE_ID: uint8 := 0xFE

  /** Digital input pin the button is wired to. */
  const PIN_BTN: uint8 := 12

  /** Base sleep duration (one hour, in milliseconds) and its tolerance. */
  const SLEEP_DUR: uint32 := 60 * 60 * 1000
  const SLEEP_DUR_TERMOR: uint16 := 0

  /** The controller's states, declared in this order starting at 0. */
  datatype EState = Init | WorkJob | Tx | WaitTx | ExitNormal | ExitFatal

  /** The enumerator's numeric value. */
  function Ordinal(s: EState): (n: nat)
    ensures n < 6
    ensures s == Init <==> n == 0
  {
    match s
    case Init => 0
    case WorkJob => 1
    case Tx => 2
    case WaitTx => 3
    case ExitNormal => 4
    case ExitFatal => 5
  }

  /** The enumerator with a given numeric value, if there is one. */
  function FromOrdinal(n: nat): (r: Option<EState>)
    ensures r.Some? <==> n < 6
  {
    if n == 0 then Some(Init)
    else if n == 1 then Some(WorkJob)
    else if n == 2 then Some(Tx)
    else if n == 3 then Some(WaitTx)
    else if n == 4 then Some(ExitNormal)
    else if n == 5 then Some(ExitFatal)
    else None
  }

  /** Ordinal and FromOrdinal are inverse bijections between EState and 0..5. */
  lemma OrdinalRoundTrip(s: EState, n: nat)
    ensures FromOrdinal(Ordinal(s)) == Some(s)
    ensures n < 6 ==> Ordinal(FromOrdinal(n).value) == n
  {
  }

  /** Distinct states have distinct numeric values. */
  lemma OrdinalInjective(s: EState, t: EState)
    ensures Ordinal(s) == Ordinal(t) ==> s == t
  {
    OrdinalRoundTrip(s, 0);
    OrdinalRoundTrip(t, 0);
  }

  /** Reduction of an integer modulo 2^32, as a uint32_t assignment does. */
  function Wrap32(x: int): (r: uint32)
    ensures 0 <= x < UINT32_MODULUS ==> r as int == x
    ensures (r as int - x) % UINT32_MODULUS == 0
  {
    (x % UINT32_MODULUS) as uint32
  }

  /** uint32_t subtraction `a - b`, which wraps around below zero. */
  function Sub32(a: uint32, b: uint32): (r: uint32)
    ensures (b as int + r as int) % UINT32_MODULUS == a as int
    ensures a >= b ==> r == a - b
    ensures a < b ==> r as int == a as int - b as int + UINT32_MODULUS
  {
    Wrap32(a as int - b as int)
  }

  /** The lower and upper bounds handed to random() in SleepNow, computed in uint32_t. */
  function SleepWindowLow(): (lo: uint32)
    ensures (lo as int + SLEEP_DUR_TERMOR as int) % UINT32_MODULUS == SLEEP_DUR as int
  {
    Wrap32(SLEEP_DUR as int - SLEEP_DUR_TERMOR as int)
  }

  function SleepWindowHigh(): (hi: uint32)
    ensures (hi as int - SLEEP_DUR_TERMOR as int) % UINT32_MODULUS == SLEEP_DUR as int
  {
    Wrap32(SLEEP_DUR as int + SLEEP_DUR_TERMOR as int)
  }

  /** The base sleep duration is 3,600,000 ms and fits in a uint32_t. */
  lemma SleepDurValue()
    ensures SLEEP_DUR as int == 3_600_000 < UINT32_MODULUS
  {
  }

  /** Neither window bound wraps, and with zero tolerance both equal SLEEP_DUR. */
  lemma SleepWindowNoWrap()
    ensures SleepWindowLow() as int == SLEEP_DUR as int - SLEEP_DUR_TERMOR as int
    ensures SleepWindowHigh() as int == SLEEP_DUR as int + SLEEP_DUR_TERMOR as int
    ensures SleepWindowLow() == SleepWindowHigh() == SLEEP_DUR
  {
  }

  /** `1UL << PIN_BTN` in 32 bits: the pin's bit, which is not zero. */
  function PinMask(): (m: bv32)
    ensures m != 0
    ensures m == 0x1000
  {
    1 << PIN_BTN
  }
}
