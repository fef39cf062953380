/** The part of the default configuration file that the checks can see, and what
    it takes for a whole configuration file to agree with it. */
module SdkOptions {
  import opened OptionForest
  import opened SdkValidation

  // ---------------------------------------------------------------------
  // The part of the configuration file that the checks can see
  // ---------------------------------------------------------------------

  const NFC_LOG: Forest<Macro> :=
    Opt(HAL_NFC_CONFIG_LOG_LEVEL, 3, End,
    Opt(HAL_NFC_CONFIG_INFO_COLOR, 0, End,
    Opt(HAL_NFC_CONFIG_DEBUG_COLOR, 0, End, End)))

  function NfcPins(on: int, off: int, event: int, detect: int, timer: int): Forest<Macro> {
    Opt(HAL_NFC_HCLOCK_ON_DEBUG_PIN, on, End,
    Opt(HAL_NFC_HCLOCK_OFF_DEBUG_PIN, off, End,
    Opt(HAL_NFC_NFC_EVENT_DEBUG_PIN, event, End,
    Opt(HAL_NFC_DETECT_EVENT_DEBUG_PIN, detect, End,
    Opt(HAL_NFC_TIMER4_EVENT_DEBUG_PIN, timer, End, End)))))
  }

  /** The NFC block around its five debugging pins. */
  function NfcBlock(pins: Forest<Macro>): Forest<Macro> {
    Opt(NFC_HAL_ENABLED, 0,
      Opt(NFCT_CONFIG_IRQ_PRIORITY, 7, End,
      Opt(HAL_NFC_CONFIG_LOG_ENABLED, 0, NFC_LOG,
      Opt(HAL_NFC_CONFIG_DEBUG_PIN_ENABLED, 0, pins, End))),
    End)
  }

  const FIRST_PINS: Forest<Macro> := NfcPins(11, 12, 24, 25, 28)
  const SECOND_PINS: Forest<Macro> := NfcPins(31, 31, 31, 31, 31)
  const FIRST_NFC: Forest<Macro> := NfcBlock(FIRST_PINS)
  const SECOND_NFC: Forest<Macro> := NfcBlock(SECOND_PINS)

  /** The drivers read by the checks and the options around them. */
  const SINGLE_DRIVERS: Forest<Macro> :=
    Opt(CLOCK_ENABLED, 0, End,
    Opt(COMP_ENABLED, 0, End,
    Opt(EGU_ENABLED, 0, End,
    Opt(I2S_ENABLED, 0, End,
    Opt(LPCOMP_ENABLED, 0, End,
    Opt(PERIPHERAL_RESOURCE_SHARING_ENABLED, 0, End, End))))))

  const RTC_DRIVERS: Forest<Macro> := Opt(RTC_ENABLED, 0, Opt(RTC2_ENABLED, 0, End, End), End)
  const SAADC_DRIVER: Forest<Macro> := Opt(SAADC_ENABLED, 0, End, End)

  const SPIS_DRIVERS: Forest<Macro> :=
    Opt(SPIS_ENABLED, 0,
      Opt(SPIS0_ENABLED, 0, End, Opt(SPIS1_ENABLED, 0, End, Opt(SPIS2_ENABLED, 0, End, End))),
    End)

  const SPI_DRIVERS: Forest<Macro> :=
    Opt(SPI_ENABLED, 0,
      Opt(SPI0_ENABLED, 0, End, Opt(SPI1_ENABLED, 0, End, Opt(SPI2_ENABLED, 0, End, End))),
    End)

  const TIMER_DRIVERS: Forest<Macro> :=
    Opt(TIMER_ENABLED, 0, Opt(TIMER3_ENABLED, 0, End, Opt(TIMER4_ENABLED, 0, End, End)), End)

  const TWIS_DRIVERS: Forest<Macro> :=
    Opt(TWIS_ENABLED, 0, Opt(TWIS0_ENABLED, 0, End, Opt(TWIS1_ENABLED, 0, End, End)), End)

  const TWI_DRIVERS: Forest<Macro> :=
    Opt(TWI_ENABLED, 0, Opt(TWI0_ENABLED, 0, End, Opt(TWI1_ENABLED, 0, End, End)), End)

  /** The blocks one after another. */
  function Blocks(blocks: seq<Forest<Macro>>): Forest<Macro> {
    if blocks == [] then End else Then(blocks[0], Blocks(blocks[1..]))
  }

  const DRIVER_BLOCKS: seq<Forest<Macro>> :=
    [ SINGLE_DRIVERS, RTC_DRIVERS, SAADC_DRIVER, SPIS_DRIVERS,
      SPI_DRIVERS, TIMER_DRIVERS, TWIS_DRIVERS, TWI_DRIVERS ]

  const DRIVERS: Forest<Macro> := Blocks(DRIVER_BLOCKS)

  const VISIBLE: Forest<Macro> := Then(DRIVERS, Then(FIRST_NFC, SECOND_NFC))
  const VISIBLE_ONCE: Forest<Macro> := Then(DRIVERS, FIRST_NFC)

  predicate Visible(k: Macro) {
    !k.Other?
  }

  /** `f` is a configuration file whose visible options are the SDK's. Nothing
      is asked of the options the checks do not read. */
  predicate SdkFile(f: Forest<Macro>) {
    Prunable(f, Visible) && Prune(f, Visible) == VISIBLE
  }

  // ---------------------------------------------------------------------
  // From the whole file to the part the checks can see
  // ---------------------------------------------------------------------

  /** Where the option for `k` first stands in sdk_config.h. */
  function FileLine(k: Macro): int {
    match k
    case CLOCK_ENABLED => 1735
    case COMP_ENABLED => 1832
    case EGU_ENABLED => 1977
    case I2S_ENABLED => 2123
    case LPCOMP_ENABLED => 2324
    case PERIPHERAL_RESOURCE_SHARING_ENABLED => 2566
    case RTC_ENABLED => 3197
    case RTC2_ENABLED => 3249
    case SAADC_ENABLED => 3316
    case SPIS_ENABLED => 3429
    case SPIS0_ENABLED => 3487
    case SPIS1_ENABLED => 3494
    case SPIS2_ENABLED => 3501
    case SPI_ENABLED => 3577
    case SPI0_ENABLED => 3600
    case SPI1_ENABLED => 3630
    case SPI2_ENABLED => 3660
    case TIMER_ENABLED => 3753
    case TIMER3_ENABLED => 3835
    case TIMER4_ENABLED => 3842
    case TWIS_ENABLED => 3904
    case TWIS0_ENABLED => 3958
    case TWIS1_ENABLED => 3965
    case TWI_ENABLED => 4045
    case TWI0_ENABLED => 4092
    case TWI1_ENABLED => 4108
    case NFC_HAL_ENABLED => 5886
    case NFCT_CONFIG_IRQ_PRIORITY => 5903
    case HAL_NFC_CONFIG_LOG_ENABLED => 5909
    case HAL_NFC_CONFIG_LOG_LEVEL => 5921
    case HAL_NFC_CONFIG_INFO_COLOR => 5937
    case HAL_NFC_CONFIG_DEBUG_COLOR => 5953
    case HAL_NFC_CONFIG_DEBUG_PIN_ENABLED => 5962
    case HAL_NFC_HCLOCK_ON_DEBUG_PIN => 6002
    case HAL_NFC_HCLOCK_OFF_DEBUG_PIN => 6042
    case HAL_NFC_NFC_EVENT_DEBUG_PIN => 6082
    case HAL_NFC_DETECT_EVENT_DEBUG_PIN => 6122
    case HAL_NFC_TIMER4_EVENT_DEBUG_PIN => 6162
    case _ => 0
  }

  /** The line of the last option of `f`, or `from` if it has none. */
  function LastLine(f: Forest<Macro>, from: int): int
    decreases f
  {
    match f
    case End => from
    case Opt(k, _, children, next) => LastLine(next, LastLine(children, FileLine(k)))
  }

  /** Each option stands on a later line than the one before it. */
  predicate InLineOrder(f: Forest<Macro>, from: int)
    decreases f
  {
    match f
    case End => true
    case Opt(k, _, children, next) =>
      && from < FileLine(k)
      && InLineOrder(children, FileLine(k))
      && InLineOrder(next, LastLine(children, FileLine(k)))
  }

  lemma {:induction false} InLineOrderThen(f: Forest<Macro>, g: Forest<Macro>, from: int)
    requires InLineOrder(f, from) && InLineOrder(g, LastLine(f, from))
    ensures InLineOrder(Then(f, g), from)
    ensures LastLine(Then(f, g), from) == LastLine(g, LastLine(f, from))
  {
    if f.Opt? {
      InLineOrderThen(f.next, g, LastLine(f.children, FileLine(f.key)));
    }
  }

  lemma {:induction false} InLineOrderSeparate(f: Forest<Macro>, from: int)
    requires InLineOrder(f, from)
    ensures from <= LastLine(f, from)
    ensures forall k :: k in Keys(f) ==> from < FileLine(k) <= LastLine(f, from)
    ensures Separate(f)
  {
    if f.Opt? {
      InLineOrderSeparate(f.children, FileLine(f.key));
      InLineOrderSeparate(f.next, LastLine(f.children, FileLine(f.key)));
    }
  }

  predicate Spans(f: Forest<Macro>, from: int, to: int) {
    InLineOrder(f, from) && LastLine(f, from) == to
  }

  lemma SingleSpan()
    ensures Spans(SINGLE_DRIVERS, 0, 2566)
  {
  }

  lemma RtcSpan()
    ensures Spans(RTC_DRIVERS, 2566, 3249)
  {
  }

  lemma SaadcSpan()
    ensures Spans(SAADC_DRIVER, 3249, 3316)
  {
  }

  lemma SpisSpan()
    ensures Spans(SPIS_DRIVERS, 3316, 3501)
  {
  }

  lemma SpiSpan()
    ensures Spans(SPI_DRIVERS, 3501, 3660)
  {
  }

  lemma TimerSpan()
    ensures Spans(TIMER_DRIVERS, 3660, 3842)
  {
  }

  lemma TwisSpan()
    ensures Spans(TWIS_DRIVERS, 3842, 3965)
  {
  }

  lemma TwiSpan()
    ensures Spans(TWI_DRIVERS, 3965, 4108)
  {
  }

  /** Blocks that follow one another span from the first line to the last. */
  lemma {:induction false} BlocksSpan(blocks: seq<Forest<Macro>>, ends: seq<int>)
    requires |ends| == |blocks| + 1
    requires forall i :: 0 <= i < |blocks| ==> Spans(blocks[i], ends[i], ends[i + 1])
    ensures Spans(Blocks(blocks), ends[0], ends[|blocks|])
    decreases |blocks|
  {
    if blocks != [] {
      BlocksSpan(blocks[1..], ends[1..]);
      InLineOrderThen(blocks[0], Blocks(blocks[1..]), ends[0]);
    }
  }

  lemma DriversSpan()
    ensures Spans(DRIVERS, 0, 4108)
  {
    SingleSpan();
    RtcSpan();
    SaadcSpan();
    SpisSpan();
    SpiSpan();
    TimerSpan();
    TwisSpan();
    TwiSpan();
    BlocksSpan(DRIVER_BLOCKS, [0, 2566, 3249, 3316, 3501, 3660, 3842, 3965, 4108]);
  }

  lemma SpanOpt(k: Macro, d: int, children: Forest<Macro>, next: Forest<Macro>, from: int, mid: int, to: int)
    requires from < FileLine(k) && Spans(children, FileLine(k), mid) && Spans(next, mid, to)
    ensures Spans(Opt(k, d, children, next), from, to)
  {
  }

  lemma NfcLogSpan()
    ensures Spans(NFC_LOG, 5909, 5953)
  {
  }

  lemma NfcPinsSpan(on: int, off: int, event: int, detect: int, timer: int)
    ensures Spans(NfcPins(on, off, event, detect, timer), 5962, 6162)
  {
    var fifth := Opt(HAL_NFC_TIMER4_EVENT_DEBUG_PIN, timer, End, End);
    SpanOpt(HAL_NFC_TIMER4_EVENT_DEBUG_PIN, timer, End, End, 6122, 6162, 6162);
    var fourth := Opt(HAL_NFC_DETECT_EVENT_DEBUG_PIN, detect, End, fifth);
    SpanOpt(HAL_NFC_DETECT_EVENT_DEBUG_PIN, detect, End, fifth, 6082, 6122, 6162);
    var third := Opt(HAL_NFC_NFC_EVENT_DEBUG_PIN, event, End, fourth);
    SpanOpt(HAL_NFC_NFC_EVENT_DEBUG_PIN, event, End, fourth, 6042, 6082, 6162);
    var second := Opt(HAL_NFC_HCLOCK_OFF_DEBUG_PIN, off, End, third);
    SpanOpt(HAL_NFC_HCLOCK_OFF_DEBUG_PIN, off, End, third, 6002, 6042, 6162);
    SpanOpt(HAL_NFC_HCLOCK_ON_DEBUG_PIN, on, End, second, 5962, 6002, 6162);
  }

  lemma FirstNfcSpan()
    ensures Spans(FIRST_NFC, 4108, 6162)
  {
    NfcLogSpan();
    NfcPinsSpan(11, 12, 24, 25, 28);
    NfcBlockSpan(FIRST_PINS);
  }

  /** The second block in place of the first. */
  lemma SecondNfcSpan()
    ensures Spans(SECOND_NFC, 4108, 6162)
  {
    NfcLogSpan();
    NfcPinsSpan(31, 31, 31, 31, 31);
    NfcBlockSpan(SECOND_PINS);
  }

  lemma NfcBlockSpan(pins: Forest<Macro>)
    requires Spans(NFC_LOG, 5909, 5953) && Spans(pins, 5962, 6162)
    ensures Spans(NfcBlock(pins), 4108, 6162)
  {
    var debug := Opt(HAL_NFC_CONFIG_DEBUG_PIN_ENABLED, 0, pins, End);
    SpanOpt(HAL_NFC_CONFIG_DEBUG_PIN_ENABLED, 0, pins, End, 5953, 6162, 6162);
    var log := Opt(HAL_NFC_CONFIG_LOG_ENABLED, 0, NFC_LOG, debug);
    SpanOpt(HAL_NFC_CONFIG_LOG_ENABLED, 0, NFC_LOG, debug, 5903, 5953, 6162);
    var priority := Opt(NFCT_CONFIG_IRQ_PRIORITY, 7, End, log);
    SpanOpt(NFCT_CONFIG_IRQ_PRIORITY, 7, End, log, 5886, 5903, 6162);
    SpanOpt(NFC_HAL_ENABLED, 0, priority, End, 4108, 6162, 6162);
  }

  predicate AllVisible(f: Forest<Macro>) {
    match f
    case End => true
    case Opt(k, _, children, next) => Visible(k) && AllVisible(children) && AllVisible(next)
  }

  lemma {:induction false} AllVisibleThen(f: Forest<Macro>, g: Forest<Macro>)
    requires AllVisible(f) && AllVisible(g)
    ensures AllVisible(Then(f, g))
  {
    if f.Opt? {
      AllVisibleThen(f.next, g);
    }
  }

  lemma {:induction false} PruneAllVisible(f: Forest<Macro>)
    requires AllVisible(f)
    ensures Prune(f, Visible) == f && Prunable(f, Visible)
  {
    if f.Opt? {
      PruneAllVisible(f.children);
      PruneAllVisible(f.next);
    }
  }

  /** An option that configures the NFC block rather than enabling it. */
  predicate NfcSetting(k: Macro) {
    match k
    case NFCT_CONFIG_IRQ_PRIORITY | HAL_NFC_CONFIG_LOG_LEVEL => true
    case HAL_NFC_HCLOCK_ON_DEBUG_PIN | HAL_NFC_HCLOCK_OFF_DEBUG_PIN => true
    case HAL_NFC_NFC_EVENT_DEBUG_PIN | HAL_NFC_DETECT_EVENT_DEBUG_PIN => true
    case HAL_NFC_TIMER4_EVENT_DEBUG_PIN => true
    case _ => false
  }

  /** Every option is off by default, the settings of the NFC block aside. */
  predicate OffByDefault(f: Forest<Macro>) {
    match f
    case End => true
    case Opt(k, d, children, next) =>
      (d == 0 || NfcSetting(k)) && OffByDefault(children) && OffByDefault(next)
  }

  lemma {:induction false} OffByDefaultThen(f: Forest<Macro>, g: Forest<Macro>)
    requires OffByDefault(f) && OffByDefault(g)
    ensures OffByDefault(Then(f, g))
  {
    if f.Opt? {
      OffByDefaultThen(f.next, g);
    }
  }

  predicate Plain(f: Forest<Macro>) {
    NaturalDefaults(f) && AllVisible(f) && OffByDefault(f)
  }

  lemma SinglePlain()
    ensures Plain(SINGLE_DRIVERS)
  {
  }

  lemma RtcPlain()
    ensures Plain(RTC_DRIVERS)
  {
  }

  lemma SaadcPlain()
    ensures Plain(SAADC_DRIVER)
  {
  }

  lemma SpisPlain()
    ensures Plain(SPIS_DRIVERS)
  {
  }

  lemma SpiPlain()
    ensures Plain(SPI_DRIVERS)
  {
  }

  lemma TimerPlain()
    ensures Plain(TIMER_DRIVERS)
  {
  }

  lemma TwisPlain()
    ensures Plain(TWIS_DRIVERS)
  {
  }

  lemma TwiPlain()
    ensures Plain(TWI_DRIVERS)
  {
  }

  lemma PlainOpt(k: Macro, d: int, children: Forest<Macro>, next: Forest<Macro>)
    requires d >= 0 && Visible(k) && (d == 0 || NfcSetting(k)) && Plain(children) && Plain(next)
    ensures Plain(Opt(k, d, children, next))
  {
  }

  lemma NfcLogPlain()
    ensures Plain(NFC_LOG)
  {
  }

  lemma NfcPinsPlain(on: nat, off: nat, event: nat, detect: nat, timer: nat)
    ensures Plain(NfcPins(on, off, event, detect, timer))
  {
    var pins := NfcPins(on, off, event, detect, timer);
    assert Plain(End);
    PlainOpt(HAL_NFC_TIMER4_EVENT_DEBUG_PIN, timer, End, End);
    PlainOpt(HAL_NFC_DETECT_EVENT_DEBUG_PIN, detect, End, pins.next.next.next.next);
    PlainOpt(HAL_NFC_NFC_EVENT_DEBUG_PIN, event, End, pins.next.next.next);
    PlainOpt(HAL_NFC_HCLOCK_OFF_DEBUG_PIN, off, End, pins.next.next);
    PlainOpt(HAL_NFC_HCLOCK_ON_DEBUG_PIN, on, End, pins.next);
  }

  lemma NfcBlockPlain(pins: Forest<Macro>)
    requires Plain(pins)
    ensures Plain(NfcBlock(pins))
  {
    NfcLogPlain();
    assert Plain(End);
    var debug := Opt(HAL_NFC_CONFIG_DEBUG_PIN_ENABLED, 0, pins, End);
    PlainOpt(HAL_NFC_CONFIG_DEBUG_PIN_ENABLED, 0, pins, End);
    var log := Opt(HAL_NFC_CONFIG_LOG_ENABLED, 0, NFC_LOG, debug);
    PlainOpt(HAL_NFC_CONFIG_LOG_ENABLED, 0, NFC_LOG, debug);
    var priority := Opt(NFCT_CONFIG_IRQ_PRIORITY, 7, End, log);
    PlainOpt(NFCT_CONFIG_IRQ_PRIORITY, 7, End, log);
    PlainOpt(NFC_HAL_ENABLED, 0, priority, End);
  }

  lemma NfcPlain()
    ensures Plain(FIRST_NFC) && Plain(SECOND_NFC)
  {
    NfcPinsPlain(11, 12, 24, 25, 28);
    NfcBlockPlain(FIRST_PINS);
    NfcPinsPlain(31, 31, 31, 31, 31);
    NfcBlockPlain(SECOND_PINS);
  }

  lemma {:induction false} BlocksPlain(blocks: seq<Forest<Macro>>)
    requires forall i :: 0 <= i < |blocks| ==> Plain(blocks[i])
    ensures Plain(Blocks(blocks))
  {
    if blocks != [] {
      BlocksPlain(blocks[1..]);
      NaturalDefaultsThen(blocks[0], Blocks(blocks[1..]));
      AllVisibleThen(blocks[0], Blocks(blocks[1..]));
      OffByDefaultThen(blocks[0], Blocks(blocks[1..]));
    }
  }

  lemma EightPlain(
      a: Forest<Macro>, b: Forest<Macro>, c: Forest<Macro>, d: Forest<Macro>,
      e: Forest<Macro>, f: Forest<Macro>, g: Forest<Macro>, h: Forest<Macro>)
    requires Plain(a) && Plain(b) && Plain(c) && Plain(d) && Plain(e) && Plain(f) && Plain(g) && Plain(h)
    ensures Plain(Blocks([a, b, c, d, e, f, g, h]))
  {
    BlocksPlain([a, b, c, d, e, f, g, h]);
  }

  lemma DriversPlain()
    ensures Plain(DRIVERS)
  {
    SinglePlain();
    RtcPlain();
    SaadcPlain();
    SpisPlain();
    SpiPlain();
    TimerPlain();
    TwisPlain();
    TwiPlain();
    EightPlain(SINGLE_DRIVERS, RTC_DRIVERS, SAADC_DRIVER, SPIS_DRIVERS,
               SPI_DRIVERS, TIMER_DRIVERS, TWIS_DRIVERS, TWI_DRIVERS);
  }

  lemma VisibleOnceDistinct()
    ensures DistinctKeys(VISIBLE_ONCE)
  {
    DriversSpan();
    FirstNfcSpan();
    InLineOrderThen(DRIVERS, FIRST_NFC, 0);
    InLineOrderSeparate(VISIBLE_ONCE, 0);
    SeparateDistinct(VISIBLE_ONCE);
  }

  lemma VisibleOnceNatural()
    ensures NaturalDefaults(VISIBLE_ONCE)
  {
    DriversPlain();
    NfcPlain();
    NaturalDefaultsThen(DRIVERS, FIRST_NFC);
  }

  /** The second NFC block is dead: the file reads as if it were not there. */
  lemma VisibleReadsOnce(overrides: Config)
    ensures Resolve(VISIBLE, overrides) == Resolve(VISIBLE_ONCE, overrides)
  {
    NfcSameShape();
    ThenEnd(FIRST_NFC);
    ThenEnd(SECOND_NFC);
    RepeatedBlockIsDead(DRIVERS, FIRST_NFC, End, SECOND_NFC, End, overrides);
  }

  lemma NfcSameShape()
    ensures SameShape(FIRST_NFC, SECOND_NFC)
    ensures SameShape(SECOND_NFC, FIRST_NFC)
  {
  }

  lemma {:induction false} ThenEnd(f: Forest<Macro>)
    ensures Then(f, End) == f
  {
    if f.Opt? {
      ThenEnd(f.next);
    }
  }

  /** The visible part is itself such a file, so nothing below is about none. */
  lemma VisibleIsSdkFile()
    ensures SdkFile(VISIBLE)
  {
    DriversPlain();
    NfcPlain();
    AllVisibleThen(FIRST_NFC, SECOND_NFC);
    AllVisibleThen(DRIVERS, Then(FIRST_NFC, SECOND_NFC));
    PruneAllVisible(VISIBLE);
  }

  /** What the checks see of the finished environment. */
  lemma WhatTheChecksSee(f: Forest<Macro>, overrides: Config)
    requires SdkFile(f)
    ensures AgreeOn(Visible, Resolve(f, overrides), Resolve(VISIBLE_ONCE, overrides))
  {
    PruneFaithful(f, Visible, overrides, overrides);
    VisibleReadsOnce(overrides);
  }

  // ---------------------------------------------------------------------
  // What the overrides do not mention is off
  // ---------------------------------------------------------------------

  lemma {:induction false} OffStaysOff(f: Forest<Macro>, env: Config, k: Macro)
    requires OffByDefault(f) && !NfcSetting(k)
    ensures Value(Resolve(f, env), k) == Value(env, k)
  {
    match f
    case End =>
    case Opt(key, d, children, next) =>
      var defined := DefineIfUndefined(env, key, d);
      OffStaysOff(children, defined, k);
      OffStaysOff(next, if defined[key] != 0 then Resolve(children, defined) else defined, k);
  }

  lemma VisibleOnceOffByDefault()
    ensures OffByDefault(VISIBLE_ONCE)
  {
    DriversPlain();
    NfcPlain();
    OffByDefaultThen(DRIVERS, FIRST_NFC);
  }

  /** Among the macros the checks read, a build turns on only what its overrides
      turn on. */
  lemma OnlyOverridesAreOn(overrides: Config, k: Macro)
    requires !NfcSetting(k)
    ensures Value(Resolve(VISIBLE_ONCE, overrides), k) == Value(overrides, k)
  {
    VisibleOnceOffByDefault();
    OffStaysOff(VISIBLE_ONCE, overrides, k);
  }
}
