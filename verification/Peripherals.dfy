/** The DragonBall interrupt block and the registers that feed it: the derived status words,
    the level-triggered IRQ1 line and the reported level, over every public operation. */
module Peripherals {
  import opened Arith
  import opened Uart

  /** A register as the set of its one bits. */
  type Reg = set<nat>

  const HI_IRQ1: nat := 0
  const HI_IRQ2: nat := 1
  const HI_IRQ3: nat := 2
  const HI_IRQ6: nat := 3
  const HI_PEN: nat := 4
  const HI_SAMPLE_TIMER: nat := 6
  const HI_EMU: nat := 7
  const LO_SPIM: nat := 0
  const LO_TIMER: nat := 1
  const LO_UART: nat := 2
  const LO_WDT: nat := 3
  const LO_RTC: nat := 4
  const LO_KBD: nat := 6
  const LO_PWM: nat := 7
  const LO_INT0: nat := 8
  const LO_INT1: nat := 9
  const LO_INT2: nat := 10
  const LO_INT3: nat := 11
  const ICR_ET1: nat := 11
  const ICR_POL1: nat := 15

  // ------------------------------------------------------------- sources and priorities

  datatype Source =
    | Emu | SampleTimer | Pen | Irq6 | Irq3 | Irq2 | Irq1
    | Spim | Timer | UartSource | Wdt | Rtc | Kbd | Pwm | Int0 | Int1 | Int2 | Int3

  /** The interrupt level each source of the DragonBall EZ asks for. */
  function Priority(s: Source): (level: nat)
    ensures 1 <= level <= 7
  {
    match s
    case Emu => 7
    case Irq6 | Timer | Pwm => 6
    case Pen => 5
    case SampleTimer | Spim | UartSource | Wdt | Rtc | Kbd | Int0 | Int1 | Int2 | Int3 => 4
    case Irq3 => 3
    case Irq2 => 2
    case Irq1 => 1
  }

  predicate Raised(s: Source, hi: Reg, lo: Reg) {
    match s
    case Emu => HI_EMU in hi
    case SampleTimer => HI_SAMPLE_TIMER in hi
    case Pen => HI_PEN in hi
    case Irq6 => HI_IRQ6 in hi
    case Irq3 => HI_IRQ3 in hi
    case Irq2 => HI_IRQ2 in hi
    case Irq1 => HI_IRQ1 in hi
    case Spim => LO_SPIM in lo
    case Timer => LO_TIMER in lo
    case UartSource => LO_UART in lo
    case Wdt => LO_WDT in lo
    case Rtc => LO_RTC in lo
    case Kbd => LO_KBD in lo
    case Pwm => LO_PWM in lo
    case Int0 => LO_INT0 in lo
    case Int1 => LO_INT1 in lo
    case Int2 => LO_INT2 in lo
    case Int3 => LO_INT3 in lo
  }

  /** palmHwGetInterruptLevel on the two status words. */
  function Level(hi: Reg, lo: Reg): nat {
    if HI_EMU in hi then 7
    else if HI_IRQ6 in hi || LO_TIMER in lo || LO_PWM in lo then 6
    else if HI_PEN in hi then 5
    else if LO_SPIM in lo || LO_UART in lo || LO_WDT in lo || LO_RTC in lo || LO_KBD in lo
            || LO_INT3 in lo || LO_INT2 in lo || LO_INT1 in lo || LO_INT0 in lo || HI_SAMPLE_TIMER in hi then 4
    else if HI_IRQ3 in hi then 3
    else if HI_IRQ2 in hi then 2
    else if HI_IRQ1 in hi then 1
    else 0
  }

  /** The reported level is the highest priority among the raised sources, and zero exactly
      when none is raised. */
  lemma LevelIsMaximum(hi: Reg, lo: Reg)
    ensures forall s :: Raised(s, hi, lo) ==> Priority(s) <= Level(hi, lo)
    ensures Level(hi, lo) > 0 ==> exists s :: Raised(s, hi, lo) && Priority(s) == Level(hi, lo)
  {
    forall s | Raised(s, hi, lo) ensures Priority(s) <= Level(hi, lo) {
      LevelCovers(s, hi, lo);
    }
    if Level(hi, lo) > 0 {
      assert Raised(Highest(hi, lo), hi, lo);
    }
  }

  lemma LevelCovers(s: Source, hi: Reg, lo: Reg)
    requires Raised(s, hi, lo)
    ensures Priority(s) <= Level(hi, lo)
  {}

  /** Some source behind a positive level. */
  ghost function Highest(hi: Reg, lo: Reg): (s: Source)
    requires Level(hi, lo) > 0
    ensures Raised(s, hi, lo) && Priority(s) == Level(hi, lo)
  {
    if HI_EMU in hi then Emu
    else if HI_IRQ6 in hi then Irq6
    else if LO_TIMER in lo then Timer
    else if LO_PWM in lo then Pwm
    else if HI_PEN in hi then Pen
    else if HI_SAMPLE_TIMER in hi then SampleTimer
    else if LO_SPIM in lo then Spim
    else if LO_UART in lo then UartSource
    else if LO_WDT in lo then Wdt
    else if LO_RTC in lo then Rtc
    else if LO_KBD in lo then Kbd
    else if LO_INT0 in lo then Int0
    else if LO_INT1 in lo then Int1
    else if LO_INT2 in lo then Int2
    else if LO_INT3 in lo then Int3
    else if HI_IRQ3 in hi then Irq3
    else if HI_IRQ2 in hi then Irq2
    else Irq1
  }

  // ------------------------------------------------------------------------- IRQ1

  predicate Asserted(icr: Reg, lineLow: bool) {
    if ICR_POL1 in icr then !lineLow else lineLow
  }

  predicate Follows(icr: Reg, lineLow: bool, pending: Reg) {
    ICR_ET1 !in icr ==> (HI_IRQ1 in pending <==> Asserted(icr, lineLow))
  }

  /** The high pending word with a level-triggered IRQ1 following its line. */
  function Levelled(icr: Reg, lineLow: bool, pending: Reg): (p: Reg)
    ensures Follows(icr, lineLow, p) && p - {HI_IRQ1} == pending - {HI_IRQ1}
    ensures Follows(icr, lineLow, pending) ==> p == pending
  {
    if ICR_ET1 in icr then pending
    else if Asserted(icr, lineLow) then pending + {HI_IRQ1}
    else pending - {HI_IRQ1}
  }

  // -------------------------------------------------------------------- the registers

  const REGISTERS := 0x1000
  const ECHO_BYTES := 8            // PALM_UART_IRDA_PROBE_ECHO_BYTES
  const ECHO_MILLIS := 200         // PALM_UART_IRDA_PROBE_ECHO_MS
  const PORT_DATA := {0x401, 0x409, 0x411, 0x419, 0x421, 0x429, 0x431}
  const ID_DETECT := 2                                            // PORT_G_ID_DETECT
  const ID_PINS: Byte := {1, 2, 4, 5, 6, 7}                       // HARDWARE_ID_KEY_STATE
  const KEYS: Reg := {LO_INT0, LO_INT1, LO_INT2, LO_INT3}
  const INPUTS: Reg := {LO_INT0, LO_INT1, LO_INT2, LO_INT3, LO_KBD}
  const IRDA_FRAMING: set<Byte> := {{6, 7}, {0, 6, 7}, {0, 2, 3, 4, 5, 6}}   // 0xc0, 0xc1, 0x7d

  /** What the clock, the calendar, the digitizer and the key matrix supply to an operation. */
  datatype World = World(
    millis: nat,
    timerHit: bool,           // the timer reached its compare value since it was last sampled
    rtcTick: bool,            // a new second since the calendar was last read, with the RTC enabled
    rtcStatus: (Byte, Byte),  // and the RTC status it leads to
    spiReply: (Byte, Byte))   // what the digitizer sends back

  /** A 16-bit register after a byte is written to one of its halves. */
  function Spliced(word: Reg, offset: nat, value: Byte): Reg {
    if offset % 2 == 0 then set b: nat | b < 16 && (if b >= 8 then b - 8 in value else b in word)
    else set b: nat | b < 16 && (if b >= 8 then b in word else b in value)
  }

  datatype Image = Image(icr: Reg, maskHigh: Reg, maskLow: Reg, statusHigh: Reg, statusLow: Reg,
                         pendingHigh: Reg, pendingLow: Reg, bytes: seq<Byte>)

  /** Registers that change by themselves: by a read, a sample, a transfer or the queues. */
  predicate Volatile(offset: nat) {
    offset in {0x202, 0x60A, 0x60B, 0x800, 0x801, 0x802, 0x803, 0x904, 0x905, 0x906, 0xB0E, 0xB0F}
  }

  /** All other registers but one. */
  predicate Stays(before: seq<Byte>, after: seq<Byte>, but: nat) {
    && |before| == |after| == REGISTERS
    && forall i :: 0 <= i < REGISTERS && i != but && !Volatile(i) ==> after[i] == before[i]
  }

  /** A port's data: output bits as written, input bits as the pins are, and internal functions
      where they are selected. */
  function PortValue(sel: Byte, dir: Byte, output: Byte, pins: Byte, internal: Byte): Byte {
    (output * sel * dir) + (pins * sel - dir) + (internal - sel)
  }

  predicate InHigh(word: Reg, b: nat) { b + 8 in word }

  /** One byte of a 16-bit register. */
  function Halved(word: Reg, offset: nat): Byte {
    if offset % 2 == 0 then set b: nat | b < 8 && InHigh(word, b) else set b: nat | b < 8 && b in word
  }

  class Registers {
    var icr: Reg                     // 0x302
    var maskHigh: Reg                // 0x304
    var maskLow: Reg                 // 0x306
    var statusHigh: Reg              // 0x30C
    var statusLow: Reg               // 0x30E
    var pendingHigh: Reg             // 0x310
    var pendingLow: Reg              // 0x312
    var bytes: seq<Byte>             // the rest of dbRegs
    var lineLow: bool                // cradleButtonLineLow
    var lastTimerStatus: (Byte, Byte)
    var penDown: bool
    var buttonBitsDown: Reg
    var portDEdge: Byte
    var irdaEnabledLast: bool
    var echoBudget: nat
    var echoUntilMs: nat
    const rx: Ring
    const tx: Ring

    constructor ()
      ensures Valid() && Settled()
    {
      rx := new Ring();
      tx := new Ring();
      icr, maskHigh, maskLow, statusHigh, statusLow, pendingHigh, pendingLow := {}, {}, {}, {}, {}, {}, {};
      bytes := seq(REGISTERS, _ => {});
      lineLow, lastTimerStatus, penDown, buttonBitsDown, portDEdge := false, ({}, {}), false, {}, {};
      irdaEnabledLast, echoBudget, echoUntilMs := false, 0, 0;
    }

    ghost predicate Valid()
      reads this`bytes, rx, rx.data, tx, tx.data
    {
      |bytes| == REGISTERS && rx != tx && rx.data != tx.data && rx.Valid() && tx.Valid()
    }

    /** Both status words are pending and not masked, and a level-triggered IRQ1 is pending
        exactly while its line is asserted. */
    predicate Settled()
      reads this`statusHigh, this`statusLow, this`pendingHigh, this`pendingLow, this`maskHigh, this`maskLow, this`icr,
            this`lineLow
    {
      statusHigh == pendingHigh - maskHigh && statusLow == pendingLow - maskLow && Follows(icr, lineLow, pendingHigh)
    }

    /** Bit b of the 16-bit register at an even offset. */
    predicate Bit(offset: nat, b: nat)
      requires |bytes| == REGISTERS && offset < REGISTERS - 1
      reads this`bytes
    {
      if b < 8 then b in bytes[offset + 1] else b - 8 in bytes[offset]
    }

    method UpdateCradleIrq1Level()
      modifies this`pendingHigh
      ensures pendingHigh == Levelled(icr, lineLow, old(pendingHigh))
    {
      if ICR_ET1 in icr { return; }
      if Asserted(icr, lineLow) {
        pendingHigh := pendingHigh + {HI_IRQ1};
      } else {
        pendingHigh := pendingHigh - {HI_IRQ1};
      }
    }

    method UpdateInterruptStatus()
      modifies this`pendingHigh, this`statusHigh, this`statusLow
      ensures Settled() && pendingHigh == Levelled(icr, lineLow, old(pendingHigh))
    {
      UpdateCradleIrq1Level();
      statusHigh := pendingHigh - maskHigh;
      statusLow := pendingLow - maskLow;
    }

    /** palmHwGetInterruptLevel: the highest priority among the sources pending and not masked. */
    method GetInterruptLevel() returns (level: nat)
      requires Settled()
      ensures forall s :: Raised(s, pendingHigh - maskHigh, pendingLow - maskLow) ==> Priority(s) <= level
      ensures level > 0 ==>
                exists s :: Raised(s, pendingHigh - maskHigh, pendingLow - maskLow) && Priority(s) == level
    {
      LevelIsMaximum(statusHigh, statusLow);
      level := Level(statusHigh, statusLow);
    }

    // ------------------------------------------------------------ the low word's sources

    /** A source of the low word switched on or off. */
    method SetLow(bit: nat, on: bool)
      modifies this`pendingLow, this`pendingHigh, this`statusHigh, this`statusLow
      ensures Settled() && pendingHigh == Levelled(icr, lineLow, old(pendingHigh))
      ensures pendingLow == if on then old(pendingLow) + {bit} else old(pendingLow) - {bit}
    {
      pendingLow := if on then pendingLow + {bit} else pendingLow - {bit};
      UpdateInterruptStatus();
    }

    predicate RtcWants()
      requires |bytes| == REGISTERS
      reads this`bytes
    {
      RtcAsks(bytes[0xB0D], bytes[0xB0F], bytes[0xB11])
    }

    static predicate RtcAsks(control: Byte, status: Byte, enabled: Byte) {
      7 in control && exists b :: 0 <= b < 6 && b in status && b in enabled
    }

    method UpdateRtcInterrupts()
      requires |bytes| == REGISTERS
      modifies this`pendingLow, this`pendingHigh, this`statusHigh, this`statusLow
      ensures Settled() && pendingHigh == Levelled(icr, lineLow, old(pendingHigh))
      ensures pendingLow == if RtcWants() then old(pendingLow) + {LO_RTC} else old(pendingLow) - {LO_RTC}
    {
      SetLow(LO_RTC, RtcWants());
    }

    /** The register side of a calendar update. */
    method UpdateRtcTime(world: World)
      requires |bytes| == REGISTERS && Settled()
      modifies this`bytes, this`pendingLow, this`pendingHigh, this`statusHigh, this`statusLow
      ensures Stays(old(bytes), bytes, REGISTERS) && Settled() && pendingHigh == old(pendingHigh)
      ensures pendingLow == if LO_RTC in pendingLow then old(pendingLow) + {LO_RTC} else old(pendingLow) - {LO_RTC}
    {
      if world.rtcTick {
        bytes := bytes[0xB0E := world.rtcStatus.0];
        bytes := bytes[0xB0F := world.rtcStatus.1];
        UpdateRtcInterrupts();
      }
    }

    /** The register side of a timer sample; the counting itself is Timing's. */
    method UpdateTimer(world: World)
      requires |bytes| == REGISTERS && Settled()
      modifies this`bytes, this`pendingLow, this`pendingHigh, this`statusHigh, this`statusLow
      ensures Stays(old(bytes), bytes, REGISTERS) && Settled() && pendingHigh == old(pendingHigh)
      ensures pendingLow == if world.timerHit && old(Bit(0x600, 4)) then old(pendingLow) + {LO_TIMER}
                            else old(pendingLow)
    {
      if world.timerHit {
        bytes := bytes[0x60B := bytes[0x60B] + {0}];
        if Bit(0x600, 4) {
          SetLow(LO_TIMER, true);
        }
      }
    }

    /** The register side of a transfer; the bits are Ads's. */
    method CompleteSpiExchange(world: World)
      requires |bytes| == REGISTERS && Settled()
      modifies this`bytes, this`pendingLow, this`pendingHigh, this`statusHigh, this`statusLow
      ensures Stays(old(bytes), bytes, REGISTERS) && Settled() && pendingHigh == old(pendingHigh)
      ensures pendingLow == if old(Bit(0x802, 9) && Bit(0x802, 8) && Bit(0x802, 6)) then old(pendingLow) + {LO_SPIM}
                            else old(pendingLow)
      ensures old(Bit(0x802, 9) && Bit(0x802, 8)) ==> Bit(0x802, 7)
      ensures Bit(0x802, 6) <==> old(Bit(0x802, 6))
      ensures !old(Bit(0x802, 9) && Bit(0x802, 8)) ==> bytes == old(bytes)
    {
      if !(Bit(0x802, 9) && Bit(0x802, 8)) { return; }
      if 5 !in bytes[0x431] {
        bytes := bytes[0x800 := world.spiReply.0];
        bytes := bytes[0x801 := world.spiReply.1];
      }
      bytes := bytes[0x803 := bytes[0x803] + {7}];
      bytes := bytes[0x802 := bytes[0x802] - {0}];
      if Bit(0x802, 6) {
        SetLow(LO_SPIM, true);
      }
    }

    method UpdateSpimInterruptPending()
      requires |bytes| == REGISTERS && Settled()
      modifies this`pendingLow, this`pendingHigh, this`statusHigh, this`statusLow
      ensures Settled() && pendingHigh == old(pendingHigh)
      ensures pendingLow == if Bit(0x802, 7) then old(pendingLow) else old(pendingLow) - {LO_SPIM}
    {
      if !Bit(0x802, 7) {
        SetLow(LO_SPIM, false);
      }
    }

    /** keyRowC and the Palm IIIc key matrix. */
    function PortDKeyBits(): Byte
      requires |bytes| == REGISTERS
      reads this`bytes, this`buttonBitsDown
    {
      KeyBits(bytes[0x410] - bytes[0x411], buttonBitsDown)
    }

    static function KeyBits(rows: Byte, buttons: Reg): Byte {
      set k: nat | k < 4 && KeyDown(rows, buttons, k)
    }

    static predicate KeyDown(rows: Byte, buttons: Reg, k: nat) {
      || (0 in rows && k + 3 in buttons)
      || (1 in rows && k < 2 && k + 1 in buttons)
      || (2 in rows && ((k == 0 && 0 in buttons) || (k == 1 && 7 in buttons) || (k == 2 && 4 in buttons)))
    }

    /** The keyboard and key-line bits port D asks for: requested input lines, each at its
        level or on its edge as selected. */
    function PortDPending(): Reg
      requires |bytes| == REGISTERS
      reads this`bytes, this`buttonBitsDown, this`portDEdge
    {
      PortDSources(PortDKeyBits(), portDEdge, bytes[0x418], bytes[0x41C], bytes[0x41D], bytes[0x41E], bytes[0x41F])
    }

    static function PortDSources(keys: Byte, latched: Byte, dir: Byte, polarity: Byte, request: Byte, kbdEnable: Byte,
                                 edge: Byte): (r: Reg)
      ensures r <= KEYS + {LO_KBD}
    {
      (set b: nat | 8 <= b < 12 && KeyAsked(b, keys, latched, dir, polarity, request, edge))
      + (if (keys - dir) * kbdEnable != {} then {LO_KBD} else {})
    }

    static predicate KeyAsked(line: nat, keys: Byte, latched: Byte, dir: Byte, polarity: Byte, request: Byte,
                              edge: Byte)
      requires line >= 8
    {
      var k: nat := line - 8;
      k in request && k !in dir
      && if k in edge then k in latched && k in polarity else k in keys <==> k in polarity
    }

    /** The key sources are those the pressed keys and the latched edges ask for. */
    ghost predicate KeysShown()
      requires |bytes| == REGISTERS
      reads this`bytes, this`buttonBitsDown, this`portDEdge, this`pendingLow
    {
      pendingLow * INPUTS == PortDPending()
    }

    /** They stay so while nothing they depend on changes. */
    twostate lemma KeysStay(but: nat)
      requires old(|bytes|) == REGISTERS && Stays(old(bytes), bytes, but) && old(KeysShown())
      requires buttonBitsDown == old(buttonBitsDown) && portDEdge == old(portDEdge)
      requires pendingLow * INPUTS == old(pendingLow) * INPUTS && !Keyed(but)
      ensures KeysShown()
    {}

    /** A source that is not a key's changes no key source. */
    static lemma OffInputs(a: Reg, b: Reg, bit: nat)
      requires a - {bit} == b - {bit} && bit !in INPUTS
      ensures a * INPUTS == b * INPUTS
    {
      forall k | k in INPUTS ensures k in a <==> k in b {
        assert k in a - {bit} <==> k in b - {bit};
      }
    }

    /** The registers the key sources are made from. */
    static predicate Keyed(offset: nat) { offset in {0x410, 0x411, 0x418, 0x41C, 0x41D, 0x41E, 0x41F} }

    method UpdatePortDInterrupts()
      requires |bytes| == REGISTERS
      modifies this`pendingLow, this`pendingHigh, this`statusHigh, this`statusLow
      ensures Settled() && pendingHigh == Levelled(icr, lineLow, old(pendingHigh))
      ensures pendingLow == (old(pendingLow) - KEYS - {LO_KBD}) + PortDPending() && KeysShown()
    {
      pendingLow := (pendingLow - KEYS - {LO_KBD}) + PortDPending();
      UpdateInterruptStatus();
    }

    // ------------------------------------------------------------------------ the UART

    /** What the UART asks for: enabled, and a receive or transmit condition with its enable. */
    predicate UartWants()
      requires |bytes| == REGISTERS
      reads this`bytes, rx`count, tx`count
    {
      Bit(0x900, 15)
      && ((Bit(0x900, 14) && ((rx.count > 0 && Bit(0x900, 3)) || (rx.count >= SIZE / 2 && Bit(0x900, 4))
                              || (rx.count >= SIZE && Bit(0x900, 5))))
          || (Bit(0x900, 13) && (Bit(0x900, 0) || (tx.count < SIZE / 2 && Bit(0x900, 1))
                                 || (tx.count == 0 && Bit(0x900, 2)))))
    }

    /** Data ready, half full, full; and ignored CTS, available, half empty, empty. */
    static function ReceiveFlags(count: nat): Byte {
      if count == 0 then {}
      else {5} + (if count >= SIZE / 2 then {6} else {}) + (if count >= SIZE then {7} else {})
    }

    static function TransmitFlags(count: nat): Byte {
      {3, 5} + (if count < SIZE / 2 then {6} else {}) + (if count == 0 then {7} else {})
    }

    /** The nested tests of the source. */
    method UartPending() returns (pending: bool)
      requires Valid()
      ensures pending == UartWants()
    {
      var receiveFlags, transmitFlags := ReceiveFlags(rx.count), TransmitFlags(tx.count);
      pending := false;
      if Bit(0x900, 15) {
        if Bit(0x900, 14) {
          if 5 in receiveFlags && Bit(0x900, 3) { pending := true; }
          if 6 in receiveFlags && Bit(0x900, 4) { pending := true; }
          if 7 in receiveFlags && Bit(0x900, 5) { pending := true; }
        }
        if Bit(0x900, 13) {
          if 5 in transmitFlags && Bit(0x900, 0) { pending := true; }
          if 6 in transmitFlags && Bit(0x900, 1) { pending := true; }
          if 7 in transmitFlags && Bit(0x900, 2) { pending := true; }
        }
      }
    }

    method SetUartRegs()
      requires Valid()
      modifies this`bytes, this`pendingLow, this`pendingHigh, this`statusHigh, this`statusLow
      ensures Valid() && Settled() && pendingHigh == Levelled(icr, lineLow, old(pendingHigh))
      ensures pendingLow == if UartWants() then old(pendingLow) + {LO_UART} else old(pendingLow) - {LO_UART}
      ensures bytes == old(bytes)[0x904 := ReceiveFlags(rx.count)]
                                 [0x905 := if rx.count > 0 then rx.contents[0] else old(bytes[0x905])]
                                 [0x906 := TransmitFlags(tx.count)]
    {
      var receive := if rx.count > 0 then rx.data[rx.tail] else bytes[0x905];
      var pending := UartPending();
      bytes := bytes[0x904 := ReceiveFlags(rx.count)][0x905 := receive][0x906 := TransmitFlags(tx.count)];
      SetLow(LO_UART, pending);
    }

    method UpdateUartRegs()
      requires Valid()
      modifies this`bytes, this`pendingLow, this`pendingHigh, this`statusHigh, this`statusLow
      ensures Valid() && Settled() && pendingHigh == Levelled(icr, lineLow, old(pendingHigh))
      ensures pendingLow == if UartWants() then old(pendingLow) + {LO_UART} else old(pendingLow) - {LO_UART}
      ensures bytes == old(bytes)[0x904 := ReceiveFlags(rx.count)]
                                 [0x905 := if rx.count > 0 then rx.contents[0] else old(bytes[0x905])]
                                 [0x906 := TransmitFlags(tx.count)]
      ensures old(KeysShown()) ==> KeysShown()
    {
      SetUartRegs();
      if old(KeysShown()) { KeysStay(REGISTERS); }
    }

    method EnqueueEcho(value: Byte, world: World)
      requires Valid()
      modifies this`echoBudget, rx, rx.data
      ensures Valid() && unchanged(tx) && unchanged(tx.data)
      ensures rx.delivered == old(rx.delivered)
      ensures rx.contents == old(rx.contents)
              || (&& rx.contents == old(rx.contents) + [value]
                  && old(echoBudget) > 0 && old(Bit(0x908, 5)) && value !in IRDA_FRAMING)
    {
      if !Bit(0x908, 5) || echoBudget == 0 { return; }
      var ahead := (world.millis - echoUntilMs) % TWO32;   // as an int32_t
      if 0 < ahead < 0x8000_0000 {
        echoBudget := 0;
        return;
      }
      if value in IRDA_FRAMING {
        echoBudget := 0;
        return;
      }
      var ok := rx.Enqueue(value);
      if ok {
        echoBudget := echoBudget - 1;
      }
    }

    method UpdateEchoState(world: World)
      requires |bytes| == REGISTERS
      modifies this`echoBudget, this`echoUntilMs, this`irdaEnabledLast
      ensures irdaEnabledLast == Bit(0x908, 5)
      ensures echoBudget <= if old(echoBudget) < ECHO_BYTES then ECHO_BYTES else old(echoBudget)
    {
      var enabled := Bit(0x908, 5);
      if enabled && !irdaEnabledLast {
        echoBudget, echoUntilMs := ECHO_BYTES, (world.millis + ECHO_MILLIS) % TWO32;
      } else if !enabled {
        echoBudget := 0;
      }
      irdaEnabledLast := enabled;
    }

    // ------------------------------------------------------------- host operations

    method SetPen(down: bool)
      requires Valid() && Settled()
      modifies this`penDown, this`pendingHigh, this`statusHigh, this`statusLow
      ensures Valid() && Settled() && penDown == down
      ensures HI_PEN in pendingHigh <==> penDown
      ensures pendingHigh - {HI_PEN} == old(pendingHigh) - {HI_PEN}
    {
      penDown := down;
      pendingHigh := if down then pendingHigh + {HI_PEN} else pendingHigh - {HI_PEN};
      UpdateInterruptStatus();
    }

    /** A level-triggered IRQ1 follows the line; an edge-triggered one is latched when the
        line becomes asserted and stays. */
    method SetCradleButton(down: bool)
      requires Valid() && Settled()
      modifies this`lineLow, this`pendingHigh, this`statusHigh, this`statusLow
      ensures Valid() && Settled() && lineLow == down
      ensures pendingHigh - {HI_IRQ1} == old(pendingHigh) - {HI_IRQ1}
      ensures ICR_ET1 in icr ==>
                (HI_IRQ1 in pendingHigh <==>
                 HI_IRQ1 in old(pendingHigh) || (!Asserted(icr, old(lineLow)) && Asserted(icr, down)))
    {
      var oldAsserted := Asserted(icr, lineLow);
      lineLow := down;
      var newAsserted := Asserted(icr, lineLow);
      if ICR_ET1 in icr {
        if !oldAsserted && newAsserted {
          pendingHigh := pendingHigh + {HI_IRQ1};
        }
      } else {
        UpdateCradleIrq1Level();
      }
      UpdateInterruptStatus();
    }

    method SetButtonBits(bits: Reg, down: bool)
      requires Valid() && Settled()
      modifies this`buttonBitsDown, this`portDEdge, this`pendingLow, this`pendingHigh, this`statusHigh, this`statusLow
      ensures Valid() && Settled() && pendingHigh == old(pendingHigh)
      ensures old(KeysShown()) || buttonBitsDown != old(buttonBitsDown) ==> KeysShown()
      ensures buttonBitsDown == if down then old(buttonBitsDown) + bits else old(buttonBitsDown) - bits
      ensures pendingLow == if buttonBitsDown == old(buttonBitsDown) then old(pendingLow)
                            else (old(pendingLow) - KEYS - {LO_KBD}) + PortDPending()
      ensures portDEdge == if buttonBitsDown == old(buttonBitsDown) then old(portDEdge)
                           else old(portDEdge) + (PortDKeyBits() - old(PortDKeyBits()))
                                + if down && Bit(0x200, 3) then SleepingKeyEdgeColumns(bits) else {}
    {
      var oldKeyBits, before := PortDKeyBits(), buttonBitsDown;
      buttonBitsDown := if down then buttonBitsDown + bits else buttonBitsDown - bits;
      if buttonBitsDown == before { return; }
      portDEdge := portDEdge + (PortDKeyBits() - oldKeyBits);
      if down && Bit(0x200, 3) {
        portDEdge := portDEdge + SleepingKeyEdgeColumns(bits);
      }
      UpdatePortDInterrupts();
    }

    static function SleepingKeyEdgeColumns(bits: Reg): Byte {
      (if bits * {3, 1, 0} != {} then {0} else {}) + (if bits * {4, 2, 7} != {} then {1} else {})
      + (if 5 in bits then {2} else {}) + (if 6 in bits then {3} else {})
    }

    /** Inputs released and their sources withdrawn, as far as lines at rest do not ask again. */
    method PrepareForSleepSnapshot()
      requires Valid() && Settled()
      modifies this`penDown, this`buttonBitsDown, this`lineLow, this`portDEdge, this`pendingLow, this`pendingHigh,
               this`statusHigh, this`statusLow
      ensures Valid() && Settled() && KeysShown() && HI_PEN !in pendingHigh
      ensures !penDown && buttonBitsDown == {} && !lineLow && portDEdge == {}
      ensures pendingHigh == Levelled(icr, false, old(pendingHigh) - {HI_PEN, HI_IRQ1})
      ensures pendingLow == (old(pendingLow) - KEYS - {LO_KBD}) + PortDPending()
      ensures InputsQuiet() <==> QuietAtRest()
    {
      Withdraw();
      UpdateInterruptStatus();
      RestIsQuiet();
    }

    method Withdraw()
      requires |bytes| == REGISTERS
      modifies this`penDown, this`buttonBitsDown, this`lineLow, this`portDEdge, this`pendingLow, this`pendingHigh,
               this`statusHigh, this`statusLow
      ensures Settled() && !penDown && buttonBitsDown == {} && !lineLow && portDEdge == {}
      ensures pendingHigh == Levelled(icr, false, old(pendingHigh) - {HI_PEN, HI_IRQ1})
      ensures pendingLow == (old(pendingLow) - KEYS - {LO_KBD}) + PortDPending() && KeysShown()
    {
      SetInputs(false, {}, {});
      pendingHigh := pendingHigh - {HI_PEN, HI_IRQ1};
      pendingLow := pendingLow - {LO_KBD} - KEYS;
      UpdatePortDInterrupts();
    }

    /** palmHwSleepSnapshotInputsQuiet. */
    predicate InputsQuiet()
      reads this
    {
      && !penDown && buttonBitsDown == {} && !lineLow && portDEdge == {}
      && pendingHigh * {HI_PEN, HI_IRQ1} == {} && pendingLow * (KEYS + {LO_KBD}) == {}
    }

    /** No input asks for service when nothing is pressed: IRQ1 is not level-triggered on a
        released line, and no requested key line is level-triggered on low. */
    predicate QuietAtRest()
      requires |bytes| == REGISTERS
      reads this
    {
      && (ICR_ET1 in icr || ICR_POL1 !in icr)
      && forall k :: 0 <= k < 4 && k in bytes[0x41D] ==> k in bytes[0x418] || k in bytes[0x41F] || k in bytes[0x41C]
    }

    lemma RestIsQuiet()
      requires |bytes| == REGISTERS && !penDown && buttonBitsDown == {} && !lineLow && portDEdge == {}
      requires HI_PEN !in pendingHigh && (ICR_ET1 in icr ==> HI_IRQ1 !in pendingHigh)
      requires Follows(icr, lineLow, pendingHigh)
      requires pendingLow * (KEYS + {LO_KBD}) == PortDPending()
      ensures InputsQuiet() <==> QuietAtRest()
    {
      assert PortDKeyBits() == {};
      PortAtRest(bytes[0x418], bytes[0x41C], bytes[0x41D], bytes[0x41E], bytes[0x41F]);
      assert HI_IRQ1 in pendingHigh ==> HI_IRQ1 in pendingHigh * {HI_PEN, HI_IRQ1};
    }

    /** With no key down and no edge latched, exactly the lines level-triggered on low ask. */
    static lemma PortAtRest(dir: Byte, polarity: Byte, request: Byte, kbdEnable: Byte, edge: Byte)
      ensures PortDSources({}, {}, dir, polarity, request, kbdEnable, edge) == {}
              <==> forall k :: 0 <= k < 4 && k in request ==> k in dir || k in edge || k in polarity
    {
      var r := PortDSources({}, {}, dir, polarity, request, kbdEnable, edge);
      forall k | 0 <= k < 4 && k in request && !(k in dir || k in edge || k in polarity)
        ensures k + 8 in r
      {
        assert KeyAsked(k + 8, {}, {}, dir, polarity, request, edge);
      }
    }

    /** palmHwCycle. */
    method Cycle(world: World)
      requires Valid() && Settled()
      modifies this`bytes, this`pendingLow, this`pendingHigh, this`statusHigh, this`statusLow
      ensures Valid() && Settled() && pendingHigh == old(pendingHigh) && Stays(old(bytes), bytes, REGISTERS)
      ensures old(KeysShown()) ==> KeysShown()
      ensures forall b :: b !in {LO_TIMER, LO_RTC} ==> (b in pendingLow <==> b in old(pendingLow))
    {
      UpdateTimer(world);
      UpdateRtcTime(world);
      UpdateInterruptStatus();
      if old(KeysShown()) { KeysStay(REGISTERS); }
    }

    /** memcpy into dbRegs. */
    method Fill(image: Image)
      modifies this`icr, this`maskHigh, this`maskLow, this`statusHigh, this`statusLow, this`pendingHigh,
               this`pendingLow,
               this`bytes
      ensures icr == image.icr && maskHigh == image.maskHigh && maskLow == image.maskLow
      ensures statusHigh == image.statusHigh && statusLow == image.statusLow
      ensures pendingHigh == image.pendingHigh && pendingLow == image.pendingLow && bytes == image.bytes
    {
      icr, maskHigh, maskLow, bytes := image.icr, image.maskHigh, image.maskLow, image.bytes;
      statusHigh, statusLow := image.statusHigh, image.statusLow;
      pendingHigh, pendingLow := image.pendingHigh, image.pendingLow;
    }

    /** The inputs from outside. */
    method SetInputs(pen: bool, buttons: Reg, edge: Byte)
      modifies this`penDown, this`buttonBitsDown, this`lineLow, this`portDEdge
      ensures penDown == pen && buttonBitsDown == buttons && !lineLow && portDEdge == edge
    {
      penDown, buttonBitsDown, lineLow, portDEdge := pen, buttons, false, edge;
    }

    method ResetEcho(enabled: bool)
      modifies this`irdaEnabledLast, this`echoBudget, this`echoUntilMs
    {
      irdaEnabledLast, echoBudget, echoUntilMs := enabled, 0, 0;
    }

    method Init()
      requires Valid()
      modifies this, rx, tx
      ensures Valid() && Settled() && statusHigh == {} == statusLow
      ensures rx.contents == [] == tx.contents
    {
      ResetRegisters();
      ResetRings();
    }

    method ResetRegisters()
      modifies this
      ensures |bytes| == REGISTERS && Settled() && statusHigh == {} == statusLow
    {
      Fill(Image({}, {0, 1, 2, 3, 4, 5, 6, 7}, {0, 1, 2, 3, 4, 5, 6, 7, 8, 9, 10, 11, 12, 13, 14, 15},
                 {}, {}, {}, {}, seq(REGISTERS, _ => {})));
      SetInputs(false, {}, {});
      ResetEcho(false);
      ResetBytes();
      lastTimerStatus := ({}, {});
    }

    method ResetRings()
      requires Valid()
      modifies rx, tx
      ensures Valid() && rx.contents == [] == tx.contents
    {
      rx.Reset();
      tx.Reset();
    }

    /** The defaults with a part in what follows: PLL control, timer compare, UART transmit. */
    method ResetBytes()
      requires |bytes| == REGISTERS
      modifies this`bytes
      ensures |bytes| == REGISTERS
    {
      bytes := bytes[0x200 := {2, 5}][0x201 := {4, 5}][0x604 := {0, 1, 2, 3, 4, 5, 6, 7}];
      bytes := bytes[0x605 := {0, 1, 2, 3, 4, 5, 6, 7}][0x906 := {3, 5, 6, 7}];
    }

    /** A register image from a snapshot, in whatever state it was stored. */
    method LoadState(image: Image, buttons: Reg, edge: Byte, pen: bool)
      requires Valid() && |image.bytes| == REGISTERS
      modifies this
      ensures Valid() && Settled() && icr == image.icr && maskHigh == image.maskHigh && maskLow == image.maskLow
      ensures pendingHigh == Levelled(icr, false, image.pendingHigh)
      ensures penDown == pen && buttonBitsDown == buttons && portDEdge == edge && !lineLow
      ensures pendingLow == Refreshed(image.pendingLow) && KeysShown()
      ensures forall i :: 0 <= i < REGISTERS && i !in {0x904, 0x905, 0x906} ==> bytes[i] == image.bytes[i]
    {
      Restore(image, buttons, edge, pen);
      Refresh();
    }

    method Restore(image: Image, buttons: Reg, edge: Byte, pen: bool)
      requires |image.bytes| == REGISTERS
      modifies this
      ensures icr == image.icr && maskHigh == image.maskHigh && maskLow == image.maskLow
      ensures pendingHigh == image.pendingHigh && pendingLow == image.pendingLow && bytes == image.bytes
      ensures penDown == pen && buttonBitsDown == buttons && portDEdge == edge && !lineLow
    {
      Fill(image);
      ResetEcho(Bit(0x908, 5));
      SetInputs(pen, buttons, edge);
    }

    method Refresh()
      requires Valid()
      modifies this`bytes, this`pendingLow, this`pendingHigh, this`statusHigh, this`statusLow
      ensures Valid() && Settled() && pendingHigh == Levelled(icr, lineLow, old(pendingHigh))
      ensures pendingLow == Refreshed(old(pendingLow))
      ensures forall i :: 0 <= i < REGISTERS && i !in {0x904, 0x905, 0x906} ==> bytes[i] == old(bytes[i])
    {
      ghost var low, ports, rtc := pendingLow, PortDPending(), RtcWants();
      RefreshPorts();
      SetUartRegs();
      assert PortDPending() == ports && RtcWants() == rtc;
      RefreshedInTurn(low, ports, rtc, UartWants());
      UpdateInterruptStatus();
    }

    method RefreshPorts()
      requires |bytes| == REGISTERS
      modifies this`pendingLow, this`pendingHigh, this`statusHigh, this`statusLow
      ensures Settled() && pendingHigh == Levelled(icr, lineLow, old(pendingHigh))
      ensures var low := (old(pendingLow) - KEYS - {LO_KBD}) + PortDPending();
              pendingLow == if RtcWants() then low + {LO_RTC} else low - {LO_RTC}
    {
      UpdatePortDInterrupts();
      UpdateRtcInterrupts();
    }

    static lemma RefreshedInTurn(low: Reg, ports: Reg, rtc: bool, uart: bool)
      requires ports <= KEYS + {LO_KBD}
      ensures var low1 := (low - KEYS - {LO_KBD}) + ports;
              var low2 := if rtc then low1 + {LO_RTC} else low1 - {LO_RTC};
              (if uart then low2 + {LO_UART} else low2 - {LO_UART})
              == (low - KEYS - {LO_KBD, LO_RTC, LO_UART}) + ports
                 + (if rtc then {LO_RTC} else {}) + (if uart then {LO_UART} else {})
    {}

    /** The low pending word with every derived source as its condition says. */
    function Refreshed(low: Reg): Reg
      requires |bytes| == REGISTERS
      reads this`bytes, this`buttonBitsDown, this`portDEdge, rx`count, tx`count
    {
      (low - KEYS - {LO_KBD, LO_RTC, LO_UART}) + PortDPending()
      + (if RtcWants() then {LO_RTC} else {}) + (if UartWants() then {LO_UART} else {})
    }

    method UartWriteRx(buffer: seq<Byte>) returns (written: nat)
      requires Valid() && Settled()
      modifies this`bytes, this`pendingLow, this`pendingHigh, this`statusHigh, this`statusLow, rx, rx.data
      ensures Valid() && Settled() && unchanged(tx) && unchanged(tx.data)
      ensures pendingHigh == old(pendingHigh) && Stays(old(bytes), bytes, REGISTERS)
      ensures old(KeysShown()) ==> KeysShown()
      ensures written == if |buffer| <= SIZE - old(rx.count) then |buffer| else SIZE - old(rx.count)
      ensures rx.contents == old(rx.contents) + buffer[..written] && rx.lost == old(rx.lost) + |buffer| - written
      ensures |buffer| > 0 ==> (LO_UART in pendingLow <==> UartWants())
    {
      if |buffer| == 0 { return 0; }
      written := rx.Write(buffer);
      UpdateUartRegs();
    }

    method UartReadTx(buffer: array<Byte>, most: nat) returns (read: nat)
      requires Valid() && Settled() && buffer != tx.data && buffer != rx.data && most <= buffer.Length
      modifies this`bytes, this`pendingLow, this`pendingHigh, this`statusHigh, this`statusLow, tx, buffer
      ensures Valid() && Settled() && unchanged(rx)
      ensures pendingHigh == old(pendingHigh) && Stays(old(bytes), bytes, REGISTERS)
      ensures old(KeysShown()) ==> KeysShown()
      ensures read == if most <= old(tx.count) then most else old(tx.count)
      ensures buffer[..read] + tx.contents == old(tx.contents) && tx.lost == old(tx.lost)
      ensures most > 0 ==> (LO_UART in pendingLow <==> UartWants())
    {
      if most == 0 { return 0; }
      read := tx.Read(buffer, most);
      UpdateUartRegs();
    }

    method LoadUartState(rxImage: seq<Byte>, txImage: seq<Byte>, rxTail: nat, rxCount: nat, txTail: nat, txCount: nat,
                         rxOverrun: nat, txOverrun: nat)
      requires Valid() && Settled() && rxOverrun < TWO32 && txOverrun < TWO32
      modifies this`bytes, this`pendingLow, this`pendingHigh, this`statusHigh, this`statusLow, rx, rx.data, tx, tx.data
      ensures Valid() && Settled() && (LO_UART in pendingLow <==> UartWants())
      ensures pendingHigh == old(pendingHigh) && Stays(old(bytes), bytes, REGISTERS)
      ensures old(KeysShown()) ==> KeysShown()
      ensures rx.contents == Stored(rxImage, rxTail, rxCount) && tx.contents == Stored(txImage, txTail, txCount)
      ensures rx.overruns == rxOverrun && tx.overruns == txOverrun
    {
      LoadRings(rxImage, txImage, rxTail, rxCount, txTail, txCount, rxOverrun, txOverrun);
      UpdateUartRegs();
    }

    method LoadRings(rxImage: seq<Byte>, txImage: seq<Byte>, rxTail: nat, rxCount: nat, txTail: nat, txCount: nat,
                     rxOverrun: nat, txOverrun: nat)
      requires Valid() && rxOverrun < TWO32 && txOverrun < TWO32
      modifies rx, rx.data, tx, tx.data
      ensures Valid()
      ensures rx.contents == Stored(rxImage, rxTail, rxCount) && tx.contents == Stored(txImage, txTail, txCount)
      ensures rx.overruns == rxOverrun && tx.overruns == txOverrun
    {
      rx.Load(rxImage, rxTail, rxCount, rxOverrun);
      tx.Load(txImage, txTail, txCount, txOverrun);
    }

    /** What is saved describes the queues: loading it back restores them (Stored). */
    method SaveUartState(rxImage: array<Byte>, txImage: array<Byte>)
        returns (rxHead: nat, rxTail: nat, rxCount: nat, txHead: nat, txTail: nat, txCount: nat,
                 rxOverrun: nat, txOverrun: nat)
      requires Valid() && Settled() && rxImage.Length == SIZE == txImage.Length && rxImage != txImage
      requires rxImage !in {rx.data, tx.data} && txImage !in {rx.data, tx.data}
      modifies this`bytes, this`pendingLow, this`pendingHigh, this`statusHigh, this`statusLow, rxImage, txImage
      ensures Valid() && Settled() && unchanged(rx) && unchanged(tx)
      ensures pendingHigh == old(pendingHigh) && Stays(old(bytes), bytes, REGISTERS)
      ensures old(KeysShown()) ==> KeysShown()
      ensures rxTail == 0 == txTail && rxHead == rxCount == rx.count && txHead == txCount == tx.count
      ensures rxOverrun == rx.overruns && txOverrun == tx.overruns
      ensures Stored(rxImage[..], rxTail, rxCount) == rx.contents
      ensures Stored(txImage[..], txTail, txCount) == tx.contents
    {
      UpdateUartRegs();
      rxHead, rxTail, rxCount := rx.Save(rxImage);
      txHead, txTail, txCount := tx.Save(txImage);
      rxOverrun, txOverrun := rx.overruns, tx.overruns;
    }

    // ------------------------------------------------------------- guest operations

    /** Reading these registers brings them up to date first. */
    predicate Sampled(offset: nat) {
      offset == 0x202 || 0x608 <= offset < 0x60C || 0x900 <= offset < 0x90A || 0xB00 <= offset < 0xB04
    }

    /** The pins of a port: the key matrix at port D, or the hardware's identity while it is asked
        for; fixed levels elsewhere. */
    function Pins(offset: nat): Byte
      requires |bytes| == REGISTERS && offset in PORT_DATA
      reads this`bytes, this`buttonBitsDown
    {
      match offset
      case 0x411 => {3}
      case 0x419 => if IdDetect() then ID_PINS else PortDKeyBits()
      case 0x421 => {0, 1, 2, 3, 4, 5, 6, 7}
      case 0x429 => {1, 7}
      case _ => {}
    }

    predicate IdDetect()
      requires |bytes| == REGISTERS
      reads this`bytes
    {
      ID_DETECT in bytes[0x430] && ID_DETECT !in bytes[0x431] && ID_DETECT !in bytes[0x432] && ID_DETECT in bytes[0x433]
    }

    /** readPortData. */
    function PortData(offset: nat): Byte
      requires |bytes| == REGISTERS && offset in PORT_DATA
      reads this`bytes, this`buttonBitsDown
    {
      var sel := bytes[if offset == 0x401 then 0x402 else offset + 2] + if offset == 0x419 then {0, 1, 2, 3} else {};
      var internal: Byte := if offset == 0x419 then {6, 7} else {};
      PortValue(sel, bytes[offset - 1], bytes[offset], Pins(offset), internal) + if offset == 0x429 then {0, 7} else {}
    }

    /** The four key lines of port D read as the matrix on input, as written on output. */
    lemma KeyLines(k: nat)
      requires |bytes| == REGISTERS && k < 4 && !IdDetect()
      ensures k in PortData(0x419)
              <==> if k in bytes[0x418] then k in bytes[0x419]
                   else KeyDown(bytes[0x410] - bytes[0x411], buttonBitsDown, k)
    {}

    /** palmHwRead8. */
    method Read8(offset: nat, world: World) returns (value: Byte)
      requires Valid() && Settled() && offset < REGISTERS
      modifies this`bytes, this`pendingLow, this`pendingHigh, this`statusHigh, this`statusLow, this`lastTimerStatus, rx
      ensures Valid() && Settled() && unchanged(tx) && rx.lost == old(rx.lost)
      ensures pendingHigh == old(pendingHigh) && Stays(old(bytes), bytes, REGISTERS)
      ensures old(KeysShown()) ==> KeysShown()
      ensures offset == 0x905 && old(rx.count) > 0 ==> old(rx.contents) == [value] + rx.contents
      ensures !(offset == 0x905 && old(rx.count) > 0) ==> rx.contents == old(rx.contents)
      ensures offset == 0x904 ==> value == ReceiveFlags(rx.count)
      ensures offset in PORT_DATA ==> value == PortData(offset)
      ensures offset !in PORT_DATA && offset !in {0x904, 0x905} ==> value == Stored8(offset)
      ensures offset in {0x30C, 0x30D} ==> value == Halved(pendingHigh - maskHigh, offset)
      ensures offset in {0x30E, 0x30F} ==> value == Halved(pendingLow - maskLow, offset)
      ensures !Sampled(offset) ==> bytes == old(bytes) && pendingLow == old(pendingLow)
      ensures offset == 0x202 ==> (7 in value <==> 7 !in old(bytes[0x202])) && pendingLow == old(pendingLow)
      ensures 0x608 <= offset < 0x60C ==> pendingLow - {LO_TIMER} == old(pendingLow) - {LO_TIMER}
      ensures 0x900 <= offset < 0x90A ==>
                pendingLow == if UartWants() then old(pendingLow) + {LO_UART} else old(pendingLow) - {LO_UART}
      ensures 0xB00 <= offset < 0xB04 ==> pendingLow - {LO_RTC} == old(pendingLow) - {LO_RTC}
    {
      if offset == 0x202 {
        value := ReadClk32();
      } else if offset in PORT_DATA {
        value := PortData(offset);
      } else if 0x900 <= offset <= 0x909 {
        value := ReadUart(offset);
        OutsideBlock(offset);
      } else {
        value := ReadShown(offset, world);
      }
    }

    lemma OutsideBlock(offset: nat)
      requires |bytes| == REGISTERS && offset < REGISTERS && !(0x302 <= offset <= 0x313)
      ensures Stored8(offset) == bytes[offset]
    {}

    lemma StatusShown(offset: nat)
      requires |bytes| == REGISTERS && offset < REGISTERS && Settled()
      ensures offset in {0x30C, 0x30D} ==> Stored8(offset) == Halved(pendingHigh - maskHigh, offset)
      ensures offset in {0x30E, 0x30F} ==> Stored8(offset) == Halved(pendingLow - maskLow, offset)
    {}

    /** Each read of the PLL's frequency register shows the other level of the clock. */
    method ReadClk32() returns (value: Byte)
      requires |bytes| == REGISTERS
      modifies this`bytes
      ensures Stays(old(bytes), bytes, REGISTERS) && (old(KeysShown()) ==> KeysShown())
      ensures value == Stored8(0x202) && (7 in value <==> 7 !in old(bytes[0x202]))
    {
      bytes := bytes[0x202 := if 7 in bytes[0x202] then bytes[0x202] - {7} else bytes[0x202] + {7}];
      value := bytes[0x202];
    }

    method ReadShown(offset: nat, world: World) returns (value: Byte)
      requires Valid() && Settled() && offset < REGISTERS && offset !in PORT_DATA && !(0x900 <= offset <= 0x909)
      requires offset != 0x202
      modifies this`bytes, this`pendingLow, this`pendingHigh, this`statusHigh, this`statusLow, this`lastTimerStatus
      ensures Valid() && Settled() && pendingHigh == old(pendingHigh) && value == Stored8(offset)
      ensures Stays(old(bytes), bytes, REGISTERS) && (old(KeysShown()) ==> KeysShown())
      ensures offset in {0x30C, 0x30D} ==> value == Halved(pendingHigh - maskHigh, offset)
      ensures offset in {0x30E, 0x30F} ==> value == Halved(pendingLow - maskLow, offset)
      ensures !Sampled(offset) ==> bytes == old(bytes) && pendingLow == old(pendingLow)
      ensures 0x608 <= offset < 0x60C ==> pendingLow - {LO_TIMER} == old(pendingLow) - {LO_TIMER}
      ensures 0xB00 <= offset < 0xB04 ==> pendingLow - {LO_RTC} == old(pendingLow) - {LO_RTC}
    {
      value := ReadSampled(offset, world);
      StatusShown(offset);
    }

    method ReadSampled(offset: nat, world: World) returns (value: Byte)
      requires Valid() && Settled() && offset < REGISTERS && offset !in PORT_DATA && !(0x900 <= offset <= 0x909)
      requires offset != 0x202
      modifies this`bytes, this`pendingLow, this`pendingHigh, this`statusHigh, this`statusLow, this`lastTimerStatus
      ensures Valid() && Settled() && pendingHigh == old(pendingHigh) && value == Stored8(offset)
      ensures Stays(old(bytes), bytes, REGISTERS) && (old(KeysShown()) ==> KeysShown())
      ensures !Sampled(offset) ==> bytes == old(bytes) && pendingLow == old(pendingLow)
      ensures 0x608 <= offset < 0x60C ==> pendingLow - {LO_TIMER} == old(pendingLow) - {LO_TIMER}
      ensures 0xB00 <= offset < 0xB04 ==> pendingLow - {LO_RTC} == old(pendingLow) - {LO_RTC}
    {
      if 0x30C <= offset <= 0x313 { UpdateInterruptStatus(); }
      if 0x608 <= offset <= 0x60B {
        SampleTimer(offset, world);
        OffInputs(pendingLow, old(pendingLow), LO_TIMER);
      }
      if 0xB00 <= offset <= 0xB03 { UpdateRtcTime(world); }
      value := Stored8(offset);
      if old(KeysShown()) { KeysStay(REGISTERS); }
    }

    /** The UART registers; the data register hands out the oldest byte. */
    method ReadUart(offset: nat) returns (value: Byte)
      requires Valid() && Settled() && 0x900 <= offset < 0x90A
      modifies this`bytes, this`pendingLow, this`pendingHigh, this`statusHigh, this`statusLow, rx
      ensures Valid() && Settled() && pendingHigh == old(pendingHigh) && rx.lost == old(rx.lost)
      ensures Stays(old(bytes), bytes, REGISTERS) && (old(KeysShown()) ==> KeysShown())
      ensures offset == 0x905 && old(rx.count) > 0 ==> old(rx.contents) == [value] + rx.contents
      ensures !(offset == 0x905 && old(rx.count) > 0) ==> rx.contents == old(rx.contents)
      ensures offset == 0x904 ==> value == ReceiveFlags(rx.count)
      ensures offset !in {0x904, 0x905} ==> value == bytes[offset]
      ensures pendingLow == if UartWants() then old(pendingLow) + {LO_UART} else old(pendingLow) - {LO_UART}
    {
      UpdateUartRegs();
      value := bytes[offset];
      if offset == 0x905 && Bit(0x904, 13) && rx.count > 0 {
        value := rx.Dequeue();
        UpdateUartRegs();
      }
    }

    method SampleTimer(offset: nat, world: World)
      requires Valid() && Settled() && 0x608 <= offset < 0x60C
      modifies this`bytes, this`pendingLow, this`pendingHigh, this`statusHigh, this`statusLow, this`lastTimerStatus
      ensures Valid() && Settled() && pendingHigh == old(pendingHigh) && Stays(old(bytes), bytes, REGISTERS)
      ensures pendingLow - {LO_TIMER} == old(pendingLow) - {LO_TIMER}
    {
      UpdateTimer(world);
      if offset >= 0x60A {
        UpdateTimer(world);
        lastTimerStatus := (lastTimerStatus.0 + bytes[0x60A], lastTimerStatus.1 + bytes[0x60B]);
      }
    }

    function Stored8(offset: nat): Byte
      requires |bytes| == REGISTERS && offset < REGISTERS
      reads this
    {
      match offset / 2
      case 0x181 => Halved(icr, offset)
      case 0x182 => Halved(maskHigh, offset)
      case 0x183 => Halved(maskLow, offset)
      case 0x186 => Halved(statusHigh, offset)
      case 0x187 => Halved(statusLow, offset)
      case 0x188 => Halved(pendingHigh, offset)
      case 0x189 => Halved(pendingLow, offset)
      case _ => bytes[offset]
    }

    method Transmit(value: Byte, world: World)
      requires Valid()
      modifies this`echoBudget, rx, rx.data, tx, tx.data
      ensures Valid() && rx.delivered == old(rx.delivered) && tx.delivered == old(tx.delivered)
      ensures tx.contents == if old(tx.count) < SIZE then old(tx.contents) + [value] else old(tx.contents)
      ensures tx.lost == old(tx.lost) + if old(tx.count) < SIZE then 0 else 1
      ensures old(rx.contents) <= rx.contents
    {
      var ok := tx.Enqueue(value);
      if ok {
        EnqueueEcho(value, world);
      }
    }

    method ClearTimerStatus(offset: nat, value: Byte)
      requires Valid() && Settled() && offset in {0x60A, 0x60B}
      modifies this`bytes, this`pendingLow, this`pendingHigh, this`statusHigh, this`statusLow, this`lastTimerStatus
      ensures Valid() && Settled() && pendingHigh == old(pendingHigh) && Stays(old(bytes), bytes, REGISTERS)
      ensures pendingLow == if Bit(0x60A, 0) then old(pendingLow) else old(pendingLow) - {LO_TIMER}
    {
      // status &= value | ~lastTimerStatus, the byte just stored being part of status
      bytes := bytes[0x60A := bytes[0x60A] - lastTimerStatus.0];
      bytes := bytes[0x60B := bytes[0x60B] - (lastTimerStatus.1 - value)];
      lastTimerStatus := ({}, {});
      if !Bit(0x60A, 0) {
        SetLow(LO_TIMER, false);
      }
    }

    /** palmHwWrite8, port outputs' display effects and the LCD address mask left out. */
    method Write8(offset: nat, value: Byte, world: World)
      requires Valid() && Settled() && offset < REGISTERS
      modifies this`icr, this`maskHigh, this`maskLow
      modifies this`bytes, this`pendingLow, this`pendingHigh, this`statusHigh, this`statusLow, this`portDEdge,
               this`lastTimerStatus, this`irdaEnabledLast, this`echoBudget, this`echoUntilMs, rx, rx.data, tx, tx.data
      ensures Valid() && Settled() && Stays(old(bytes), bytes, offset)
      ensures portDEdge == old(portDEdge) - if offset == 0x419 then value * bytes[0x41F] else {}
      ensures offset / 2 != 0x189 && (old(KeysShown()) || PortInput(offset)) ==> KeysShown()
      ensures offset / 2 != 0x188 ==> (HI_PEN in pendingHigh <==> HI_PEN in old(pendingHigh))
      ensures icr == if offset / 2 == 0x181 then Spliced(old(icr), offset, value) else old(icr)
      ensures maskHigh == if offset / 2 == 0x182 then Spliced(old(maskHigh), offset, value) else old(maskHigh)
      ensures maskLow == if offset / 2 == 0x183 then Spliced(old(maskLow), offset, value) else old(maskLow)
      ensures offset == 0x30D && 0 in value && ICR_ET1 in icr ==> pendingHigh == old(pendingHigh) - {HI_IRQ1}
      ensures !(offset == 0x30D && 0 in value && ICR_ET1 in icr) ==>
                pendingHigh == Levelled(icr, lineLow,
                                        if offset / 2 == 0x188 then Spliced(old(pendingHigh), offset, value)
                                        else old(pendingHigh))
      ensures if offset / 2 == 0x189 then pendingLow == Spliced(old(pendingLow), offset, value)
              else LowFollows(offset, old(pendingLow), old(bytes))
      ensures Plain(offset) ==> bytes == old(bytes)[offset := value]
      ensures offset == 0x907 ==>
                && tx.contents == (if old(tx.count) < SIZE then old(tx.contents) + [value] else old(tx.contents))
                && tx.lost == old(tx.lost) + if old(tx.count) < SIZE then 0 else 1
      ensures offset != 0x907 ==> tx.contents == old(tx.contents) && rx.contents == old(rx.contents)
      ensures rx.delivered == old(rx.delivered) && tx.delivered == old(tx.delivered)
    {
      if offset == 0x30C || offset == 0x30D {
        Acknowledge(offset, value);
      } else if 0x302 <= offset <= 0x313 {
        StoreBlock(offset, value);
      } else {
        StoreOutside(offset, value, world);
      }
    }

    method Acknowledge(offset: nat, value: Byte)
      requires Valid() && Settled() && offset in {0x30C, 0x30D}
      modifies this`pendingHigh, this`statusHigh, this`statusLow
      ensures Valid() && Settled()
      ensures pendingHigh == if offset == 0x30D && 0 in value && ICR_ET1 in icr then old(pendingHigh) - {HI_IRQ1}
                             else old(pendingHigh)
    {
      if offset == 0x30D && 0 in value && ICR_ET1 in icr {
        pendingHigh := pendingHigh - {HI_IRQ1};
      }
      UpdateInterruptStatus();
    }

    method ClearRtcStatus(offset: nat, value: Byte)
      requires Valid() && Settled() && offset in {0xB0E, 0xB0F}
      modifies this`bytes, this`pendingLow, this`pendingHigh, this`statusHigh, this`statusLow
      ensures Valid() && Settled() && pendingHigh == old(pendingHigh)
      ensures bytes == old(bytes)[offset := old(bytes[offset]) - value]
      ensures LowFollows(offset, old(pendingLow), old(bytes))
    {
      bytes := bytes[offset := bytes[offset] - value];
      UpdateRtcInterrupts();
    }

    /** Outside the interrupt block. */
    method StoreOutside(offset: nat, value: Byte, world: World)
      requires Valid() && Settled() && offset < REGISTERS && !(0x302 <= offset <= 0x313)
      modifies this`bytes, this`pendingLow, this`pendingHigh, this`statusHigh, this`statusLow, this`portDEdge,
               this`lastTimerStatus, this`irdaEnabledLast, this`echoBudget, this`echoUntilMs, rx, rx.data, tx, tx.data
      ensures Valid() && Settled() && pendingHigh == old(pendingHigh) && Stays(old(bytes), bytes, offset)
      ensures portDEdge == old(portDEdge) - if offset == 0x419 then value * bytes[0x41F] else {}
      ensures LowFollows(offset, old(pendingLow), old(bytes))
      ensures old(KeysShown()) || PortInput(offset) ==> KeysShown()
      ensures Plain(offset) ==> bytes == old(bytes)[offset := value]
      ensures offset == 0x907 ==>
                && tx.contents == (if old(tx.count) < SIZE then old(tx.contents) + [value] else old(tx.contents))
                && tx.lost == old(tx.lost) + if old(tx.count) < SIZE then 0 else 1
      ensures offset != 0x907 ==> tx.contents == old(tx.contents) && rx.contents == old(rx.contents)
      ensures rx.delivered == old(rx.delivered) && tx.delivered == old(tx.delivered)
    {
      if offset == 0xB0E || offset == 0xB0F {
        ClearRtcStatus(offset, value);
      } else {
        bytes := bytes[offset := value];
        AfterStore(offset, value, world);
      }
      KeysFollow(offset);
    }

    /** The key sources after a store outside the interrupt block. */
    twostate lemma KeysFollow(offset: nat)
      requires offset < REGISTERS && Stays(old(bytes), bytes, offset) && LowFollows(offset, old(pendingLow), old(bytes))
      requires buttonBitsDown == old(buttonBitsDown) && (portDEdge == old(portDEdge) || PortInput(offset))
      ensures old(KeysShown()) || PortInput(offset) ==> KeysShown()
    {
      if offset == 0x803 { OffInputs(pendingLow, old(pendingLow), LO_SPIM); }
      if old(KeysShown()) && !PortInput(offset) { KeysStay(offset); }
    }

    /** A store to the interrupt block itself. */
    method PutBlock(offset: nat, value: Byte)
      requires Valid() && Settled() && 0x302 <= offset <= 0x313 && offset !in {0x30C, 0x30D}
      modifies this`icr, this`maskHigh, this`maskLow, this`statusHigh, this`statusLow, this`pendingHigh,
               this`pendingLow,
               this`bytes
      ensures Valid() && Settled() && Stays(old(bytes), bytes, offset)
      ensures icr == if offset / 2 == 0x181 then Spliced(old(icr), offset, value) else old(icr)
      ensures maskHigh == if offset / 2 == 0x182 then Spliced(old(maskHigh), offset, value) else old(maskHigh)
      ensures maskLow == if offset / 2 == 0x183 then Spliced(old(maskLow), offset, value) else old(maskLow)
      ensures pendingHigh == Levelled(icr, lineLow, if offset / 2 == 0x188 then Spliced(old(pendingHigh), offset, value)
                                                    else old(pendingHigh))
      ensures pendingLow == if offset / 2 == 0x189 then Spliced(old(pendingLow), offset, value) else old(pendingLow)
    {
      match offset / 2 {
        case 0x181 => icr := Spliced(icr, offset, value);
        case 0x182 => maskHigh := Spliced(maskHigh, offset, value);
        case 0x183 => maskLow := Spliced(maskLow, offset, value);
        case 0x187 => statusLow := Spliced(statusLow, offset, value);
        case 0x188 => pendingHigh := Spliced(pendingHigh, offset, value);
        case 0x189 => pendingLow := Spliced(pendingLow, offset, value);
        case _ => bytes := bytes[offset := value];
      }
      UpdateInterruptStatus();
    }

    method StoreBlock(offset: nat, value: Byte)
      requires Valid() && Settled() && 0x302 <= offset <= 0x313 && offset !in {0x30C, 0x30D}
      modifies this`icr, this`maskHigh, this`maskLow, this`statusHigh, this`statusLow, this`pendingHigh,
               this`pendingLow,
               this`bytes
      ensures Valid() && Settled() && Stays(old(bytes), bytes, offset)
      ensures icr == if offset / 2 == 0x181 then Spliced(old(icr), offset, value) else old(icr)
      ensures maskHigh == if offset / 2 == 0x182 then Spliced(old(maskHigh), offset, value) else old(maskHigh)
      ensures maskLow == if offset / 2 == 0x183 then Spliced(old(maskLow), offset, value) else old(maskLow)
      ensures pendingHigh == Levelled(icr, lineLow, if offset / 2 == 0x188 then Spliced(old(pendingHigh), offset, value)
                                                    else old(pendingHigh))
      ensures pendingLow == if offset / 2 == 0x189 then Spliced(old(pendingLow), offset, value) else old(pendingLow)
      ensures offset / 2 != 0x189 && old(KeysShown()) ==> KeysShown()
    {
      PutBlock(offset, value);
      if old(KeysShown()) && offset / 2 != 0x189 { KeysStay(offset); }
    }

    predicate PortInput(offset: nat) {
      0x418 <= offset <= 0x41F || offset in {0x408, 0x409, 0x410, 0x411, 0x428, 0x429}
    }

    /** Offsets where a store is all that happens. */
    predicate Plain(offset: nat) {
      && !(0x302 <= offset <= 0x313) && offset !in {0x60A, 0x60B, 0x803} && !(0x900 <= offset <= 0x909)
      && offset !in {0xB0E, 0xB0F}
    }

    /** The low pending word after a write outside it: the source the register feeds follows
        the register's new state, all others stay. */
    predicate LowFollows(offset: nat, low: Reg, before: seq<Byte>)
      requires |bytes| == |before| == REGISTERS && offset < REGISTERS
      reads this`bytes, this`pendingLow, this`buttonBitsDown, this`portDEdge, rx`count, tx`count
    {
      if 0x900 <= offset <= 0x909 then
        pendingLow == if UartWants() then low + {LO_UART} else low - {LO_UART}
      else if offset == 0x803 then
        && pendingLow - {LO_SPIM} == low - {LO_SPIM}
        && (LO_SPIM in pendingLow <==>
            Bit(0x802, 7) && (LO_SPIM in low || (1 in before[0x802] && 0 in before[0x802] && Bit(0x802, 6))))
      else if offset == 0x802 then
        pendingLow == if Bit(0x802, 7) then low else low - {LO_SPIM}
      else if offset in {0x60A, 0x60B} then
        pendingLow == if Bit(0x60A, 0) then low else low - {LO_TIMER}
      else if PortInput(offset) then
        pendingLow == (low - KEYS - {LO_KBD}) + PortDPending()
      else if 0xB0C <= offset <= 0xB11 then
        pendingLow == if RtcWants() then low + {LO_RTC} else low - {LO_RTC}
      else pendingLow == low
    }

    /** What follows a store outside the interrupt block. */
    method AfterStore(offset: nat, value: Byte, world: World)
      requires Valid() && Settled() && offset < REGISTERS && !(0x302 <= offset <= 0x313) && offset !in {0xB0E, 0xB0F}
      requires bytes[offset] == value
      modifies this`bytes, this`pendingLow, this`pendingHigh, this`statusHigh, this`statusLow, this`portDEdge,
               this`lastTimerStatus, this`irdaEnabledLast, this`echoBudget, this`echoUntilMs, rx, rx.data, tx, tx.data
      ensures Valid() && Settled() && pendingHigh == old(pendingHigh) && Stays(old(bytes), bytes, REGISTERS)
      ensures portDEdge == old(portDEdge) - if offset == 0x419 then value * bytes[0x41F] else {}
      ensures LowFollows(offset, old(pendingLow), old(bytes))
      ensures Plain(offset) ==> bytes == old(bytes)
      ensures offset == 0x907 ==>
                && tx.contents == (if old(tx.count) < SIZE then old(tx.contents) + [value] else old(tx.contents))
                && tx.lost == old(tx.lost) + if old(tx.count) < SIZE then 0 else 1
      ensures offset != 0x907 ==> tx.contents == old(tx.contents) && rx.contents == old(rx.contents)
      ensures rx.delivered == old(rx.delivered) && tx.delivered == old(tx.delivered)
    {
      if 0x900 <= offset <= 0x909 {
        StoreUart(offset, value, world);
      } else {
        StoreOther(offset, value, world);
      }
    }

    /** Stores to the UART: transmitting, the echo window, and the flags. */
    method StoreUart(offset: nat, value: Byte, world: World)
      requires Valid() && Settled() && 0x900 <= offset <= 0x909
      modifies this`bytes, this`pendingLow, this`pendingHigh, this`statusHigh, this`statusLow,
               this`irdaEnabledLast, this`echoBudget, this`echoUntilMs, rx, rx.data, tx, tx.data
      ensures Valid() && Settled() && pendingHigh == old(pendingHigh) && Stays(old(bytes), bytes, REGISTERS)
      ensures pendingLow == if UartWants() then old(pendingLow) + {LO_UART} else old(pendingLow) - {LO_UART}
      ensures offset == 0x907 ==>
                && tx.contents == (if old(tx.count) < SIZE then old(tx.contents) + [value] else old(tx.contents))
                && tx.lost == old(tx.lost) + if old(tx.count) < SIZE then 0 else 1
      ensures offset != 0x907 ==> tx.contents == old(tx.contents) && rx.contents == old(rx.contents)
      ensures rx.delivered == old(rx.delivered) && tx.delivered == old(tx.delivered)
    {
      if offset == 0x907 {
        Transmit(value, world);
      }
      if offset == 0x908 || offset == 0x909 {
        UpdateEchoState(world);
      }
      UpdateUartRegs();
    }

    /** All other stores. */
    method StoreOther(offset: nat, value: Byte, world: World)
      requires Valid() && Settled() && offset < REGISTERS && !(0x302 <= offset <= 0x313) && offset !in {0xB0E, 0xB0F}
      requires !(0x900 <= offset <= 0x909) && bytes[offset] == value
      modifies this`bytes, this`pendingLow, this`pendingHigh, this`statusHigh, this`statusLow, this`portDEdge,
               this`lastTimerStatus
      ensures Valid() && Settled() && pendingHigh == old(pendingHigh) && Stays(old(bytes), bytes, REGISTERS)
      ensures portDEdge == old(portDEdge) - if offset == 0x419 then value * bytes[0x41F] else {}
      ensures LowFollows(offset, old(pendingLow), old(bytes))
      ensures Plain(offset) ==> bytes == old(bytes)
    {
      if offset == 0x419 {
        portDEdge := portDEdge - value * bytes[0x41F];
      }
      if offset == 0x803 {
        CompleteSpiExchange(world);
      }
      if offset == 0x802 || offset == 0x803 {
        UpdateSpimInterruptPending();
      }
      if offset == 0x60A || offset == 0x60B {
        ClearTimerStatus(offset, value);
      }
      if PortInput(offset) {
        UpdatePortDInterrupts();
      }
      if 0xB0C <= offset <= 0xB11 {
        UpdateRtcInterrupts();
      }
    }
  }
}
