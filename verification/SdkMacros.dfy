/** Every macro the checks can see, as a build of the SDK's file leaves it. */
module SdkMacros {
  import opened OptionForest
  import opened SdkOptions
  import opened SdkValidation

  /** An option: the options around it, outermost first, and its default. */
  datatype Entry = Entry(around: seq<Macro>, default: int)

  /** The entry of sdk_config.h for a macro; the file has none for some drivers. */
  function EntryOf(k: Macro): Maybe<Entry> {
    match k
    case CLOCK_ENABLED | COMP_ENABLED | EGU_ENABLED | I2S_ENABLED | LPCOMP_ENABLED => Some(Entry([], 0))
    case PERIPHERAL_RESOURCE_SHARING_ENABLED | SAADC_ENABLED | NFC_HAL_ENABLED => Some(Entry([], 0))
    case RTC_ENABLED | SPIS_ENABLED | SPI_ENABLED => Some(Entry([], 0))
    case TIMER_ENABLED | TWIS_ENABLED | TWI_ENABLED => Some(Entry([], 0))
    case RTC2_ENABLED => Some(Entry([RTC_ENABLED], 0))
    case SPIS0_ENABLED | SPIS1_ENABLED | SPIS2_ENABLED => Some(Entry([SPIS_ENABLED], 0))
    case SPI0_ENABLED | SPI1_ENABLED | SPI2_ENABLED => Some(Entry([SPI_ENABLED], 0))
    case TIMER3_ENABLED | TIMER4_ENABLED => Some(Entry([TIMER_ENABLED], 0))
    case TWIS0_ENABLED | TWIS1_ENABLED => Some(Entry([TWIS_ENABLED], 0))
    case TWI0_ENABLED | TWI1_ENABLED => Some(Entry([TWI_ENABLED], 0))
    case NFCT_CONFIG_IRQ_PRIORITY => Some(Entry([NFC_HAL_ENABLED], 7))
    case HAL_NFC_CONFIG_LOG_ENABLED | HAL_NFC_CONFIG_DEBUG_PIN_ENABLED => Some(Entry([NFC_HAL_ENABLED], 0))
    case HAL_NFC_CONFIG_LOG_LEVEL => Some(Entry(IN_LOG, 3))
    case HAL_NFC_CONFIG_INFO_COLOR | HAL_NFC_CONFIG_DEBUG_COLOR => Some(Entry(IN_LOG, 0))
    case HAL_NFC_HCLOCK_ON_DEBUG_PIN => Some(Entry(IN_PINS, 11))
    case HAL_NFC_HCLOCK_OFF_DEBUG_PIN => Some(Entry(IN_PINS, 12))
    case HAL_NFC_NFC_EVENT_DEBUG_PIN => Some(Entry(IN_PINS, 24))
    case HAL_NFC_DETECT_EVENT_DEBUG_PIN => Some(Entry(IN_PINS, 25))
    case HAL_NFC_TIMER4_EVENT_DEBUG_PIN => Some(Entry(IN_PINS, 28))
    case _ => None
  }

  const IN_LOG: seq<Macro> := [NFC_HAL_ENABLED, HAL_NFC_CONFIG_LOG_ENABLED]
  const IN_PINS: seq<Macro> := [NFC_HAL_ENABLED, HAL_NFC_CONFIG_DEBUG_PIN_ENABLED]

  /** What a macro is in the end: its override, else its default if the
      overrides turn on every option around it, else undefined. */
  function Final(overrides: Config, k: Macro): Maybe<int> {
    if k in overrides then Some(overrides[k])
    else match EntryOf(k)
      case None => None
      case Some(entry) => if AllNonzero(overrides, entry.around) then Some(entry.default) else None
  }

  /** The build defines `k`. */
  predicate Stands(overrides: Config, k: Macro) {
    Final(overrides, k).Some?
  }

  // ---------------------------------------------------------------------
  // The entries are those of the file
  // ---------------------------------------------------------------------

  lemma {:induction false} DeclaredInBlock(blocks: seq<Forest<Macro>>, i: nat, path: seq<Macro>, k: Macro)
    requires i < |blocks| && Declares(blocks[i], path, k, 0)
    ensures Declares(Blocks(blocks), path, k, 0)
    decreases i
  {
    DeclaresThen(blocks[0], Blocks(blocks[1..]), path, k, 0);
    if i > 0 {
      DeclaredInBlock(blocks[1..], i - 1, path, k);
    }
  }

  lemma DriverDeclared(i: nat, path: seq<Macro>, k: Macro)
    requires i < |DRIVER_BLOCKS| && Declares(DRIVER_BLOCKS[i], path, k, 0)
    ensures Declares(VISIBLE_ONCE, path, k, 0)
  {
    DeclaredInBlock(DRIVER_BLOCKS, i, path, k);
    DeclaresThen(DRIVERS, FIRST_NFC, path, k, 0);
  }

  lemma DeclaredUnder(
      switch: Macro, d: int, children: Forest<Macro>, next: Forest<Macro>, path: seq<Macro>, k: Macro, e: int)
    requires Declares(children, path, k, e)
    ensures Declares(Opt(switch, d, children, next), [switch] + path, k, e)
  {
    assert ([switch] + path)[1..] == path;
  }

  lemma SwitchedIn(i: nat, k: Macro)
    requires i < |DRIVER_BLOCKS| && DRIVER_BLOCKS[i].Opt? && Declares(DRIVER_BLOCKS[i].children, [], k, 0)
    ensures Declares(VISIBLE_ONCE, [DRIVER_BLOCKS[i].key], k, 0)
  {
    var block := DRIVER_BLOCKS[i];
    DeclaredUnder(block.key, block.default, block.children, block.next, [], k, 0);
    assert [block.key] + [] == [block.key];
    DriverDeclared(i, [block.key], k);
  }

  lemma SingleDeclared(k: Macro)
    requires k in {CLOCK_ENABLED, COMP_ENABLED, EGU_ENABLED, I2S_ENABLED, LPCOMP_ENABLED,
                   PERIPHERAL_RESOURCE_SHARING_ENABLED}
    ensures Declares(SINGLE_DRIVERS, [], k, 0)
  {
  }

  lemma RtcDeclared(k: Macro)
    requires k == RTC2_ENABLED
    ensures Declares(VISIBLE_ONCE, [RTC_ENABLED], k, 0)
  {
    assert Declares(RTC_DRIVERS.children, [], k, 0);
    SwitchedIn(1, k);
  }

  lemma SpisDeclared(k: Macro)
    requires k == SPIS0_ENABLED || k == SPIS1_ENABLED || k == SPIS2_ENABLED
    ensures Declares(VISIBLE_ONCE, [SPIS_ENABLED], k, 0)
  {
    assert Declares(SPIS_DRIVERS.children, [], k, 0);
    SwitchedIn(3, k);
  }

  lemma SpiDeclared(k: Macro)
    requires k == SPI0_ENABLED || k == SPI1_ENABLED || k == SPI2_ENABLED
    ensures Declares(VISIBLE_ONCE, [SPI_ENABLED], k, 0)
  {
    assert Declares(SPI_DRIVERS.children, [], k, 0);
    SwitchedIn(4, k);
  }

  lemma TimerDeclared(k: Macro)
    requires k == TIMER3_ENABLED || k == TIMER4_ENABLED
    ensures Declares(VISIBLE_ONCE, [TIMER_ENABLED], k, 0)
  {
    assert Declares(TIMER_DRIVERS.children, [], k, 0);
    SwitchedIn(5, k);
  }

  lemma TwisDeclared(k: Macro)
    requires k == TWIS0_ENABLED || k == TWIS1_ENABLED
    ensures Declares(VISIBLE_ONCE, [TWIS_ENABLED], k, 0)
  {
    assert Declares(TWIS_DRIVERS.children, [], k, 0);
    SwitchedIn(6, k);
  }

  lemma TwiDeclared(k: Macro)
    requires k == TWI0_ENABLED || k == TWI1_ENABLED
    ensures Declares(VISIBLE_ONCE, [TWI_ENABLED], k, 0)
  {
    assert Declares(TWI_DRIVERS.children, [], k, 0);
    SwitchedIn(7, k);
  }

  const SWITCHES: seq<Macro> :=
    [RTC_ENABLED, SAADC_ENABLED, SPIS_ENABLED, SPI_ENABLED, TIMER_ENABLED, TWIS_ENABLED, TWI_ENABLED]

  lemma SwitchDeclared(k: Macro)
    requires k in SWITCHES
    ensures Declares(VISIBLE_ONCE, [], k, 0)
  {
    var i :| 0 <= i < |SWITCHES| && SWITCHES[i] == k;
    SwitchHeadsBlock(i);
    DriverDeclared(i + 1, [], k);
  }

  lemma SwitchHeadsBlock(i: nat)
    requires i < |SWITCHES|
    ensures i + 1 < |DRIVER_BLOCKS| && DRIVER_BLOCKS[i + 1].Opt?
    ensures DRIVER_BLOCKS[i + 1].key == SWITCHES[i] && DRIVER_BLOCKS[i + 1].default == 0
  {
  }

  lemma OutermostDeclared(k: Macro)
    requires EntryOf(k) == Some(Entry([], 0))
    ensures Declares(VISIBLE_ONCE, [], k, 0)
  {
    if k == NFC_HAL_ENABLED {
      DeclaresThen(DRIVERS, FIRST_NFC, [], k, 0);
    } else if k in SWITCHES {
      SwitchDeclared(k);
    } else {
      SingleDeclared(k);
      DriverDeclared(0, [], k);
    }
  }

  /** The switch that the file asks before it defines a driver. */
  predicate UnderSwitch(k: Macro, switch: Macro) {
    || (switch == RTC_ENABLED && k == RTC2_ENABLED)
    || (switch == SPIS_ENABLED && k in {SPIS0_ENABLED, SPIS1_ENABLED, SPIS2_ENABLED})
    || (switch == SPI_ENABLED && k in {SPI0_ENABLED, SPI1_ENABLED, SPI2_ENABLED})
    || (switch == TIMER_ENABLED && k in {TIMER3_ENABLED, TIMER4_ENABLED})
    || (switch == TWIS_ENABLED && k in {TWIS0_ENABLED, TWIS1_ENABLED})
    || (switch == TWI_ENABLED && k in {TWI0_ENABLED, TWI1_ENABLED})
  }

  lemma SwitchedEntry(k: Macro)
    requires EntryOf(k).Some? && |EntryOf(k).value.around| == 1
    requires EntryOf(k).value.around[0] != NFC_HAL_ENABLED
    ensures UnderSwitch(k, EntryOf(k).value.around[0]) && EntryOf(k).value.default == 0
  {
  }

  lemma SwitchedDeclared(k: Macro, switch: Macro)
    requires UnderSwitch(k, switch)
    ensures Declares(VISIBLE_ONCE, [switch], k, 0)
  {
    if switch == RTC_ENABLED {
      RtcDeclared(k);
    } else if switch == SPIS_ENABLED {
      SpisDeclared(k);
    } else if switch == SPI_ENABLED {
      SpiDeclared(k);
    } else if switch == TIMER_ENABLED {
      TimerDeclared(k);
    } else if switch == TWIS_ENABLED {
      TwisDeclared(k);
    } else {
      TwiDeclared(k);
    }
  }

  lemma InNfcBlock(path: seq<Macro>, k: Macro, d: int)
    requires Declares(FIRST_NFC.children, path, k, d)
    ensures Declares(VISIBLE_ONCE, [NFC_HAL_ENABLED] + path, k, d)
  {
    DeclaredUnder(NFC_HAL_ENABLED, 0, FIRST_NFC.children, End, path, k, d);
    DeclaresThen(DRIVERS, FIRST_NFC, [NFC_HAL_ENABLED] + path, k, d);
  }

  lemma NfcOptionDeclared(k: Macro, d: int)
    requires (k == NFCT_CONFIG_IRQ_PRIORITY && d == 7) || (k == HAL_NFC_CONFIG_LOG_ENABLED && d == 0)
          || (k == HAL_NFC_CONFIG_DEBUG_PIN_ENABLED && d == 0)
    ensures Declares(VISIBLE_ONCE, [NFC_HAL_ENABLED], k, d)
  {
    InNfcBlock([], k, d);
    assert [NFC_HAL_ENABLED] + [] == [NFC_HAL_ENABLED];
  }

  lemma LogOptionDeclared(k: Macro, d: int)
    requires (k == HAL_NFC_CONFIG_LOG_LEVEL && d == 3) || (k == HAL_NFC_CONFIG_INFO_COLOR && d == 0)
          || (k == HAL_NFC_CONFIG_DEBUG_COLOR && d == 0)
    ensures Declares(VISIBLE_ONCE, IN_LOG, k, d)
  {
    assert Declares(NFC_LOG, [], k, d);
    var log := FIRST_NFC.children.next;
    DeclaredUnder(HAL_NFC_CONFIG_LOG_ENABLED, 0, NFC_LOG, log.next, [], k, d);
    assert [HAL_NFC_CONFIG_LOG_ENABLED] + [] == [HAL_NFC_CONFIG_LOG_ENABLED];
    InNfcBlock([HAL_NFC_CONFIG_LOG_ENABLED], k, d);
    assert [NFC_HAL_ENABLED] + [HAL_NFC_CONFIG_LOG_ENABLED] == IN_LOG;
  }

  /** The debugging pins and the default of each in the first block. */
  predicate FirstPin(k: Macro, d: int) {
    || (k == HAL_NFC_HCLOCK_ON_DEBUG_PIN && d == 11)
    || (k == HAL_NFC_HCLOCK_OFF_DEBUG_PIN && d == 12)
    || (k == HAL_NFC_NFC_EVENT_DEBUG_PIN && d == 24)
    || (k == HAL_NFC_DETECT_EVENT_DEBUG_PIN && d == 25)
    || (k == HAL_NFC_TIMER4_EVENT_DEBUG_PIN && d == 28)
  }

  lemma PinDeclared(k: Macro, d: int)
    requires FirstPin(k, d)
    ensures Declares(FIRST_PINS, [], k, d)
  {
  }

  lemma PinOptionDeclared(k: Macro, d: int)
    requires FirstPin(k, d)
    ensures Declares(VISIBLE_ONCE, IN_PINS, k, d)
  {
    PinDeclared(k, d);
    DeclaredUnder(HAL_NFC_CONFIG_DEBUG_PIN_ENABLED, 0, FIRST_PINS, End, [], k, d);
    assert [HAL_NFC_CONFIG_DEBUG_PIN_ENABLED] + [] == [HAL_NFC_CONFIG_DEBUG_PIN_ENABLED];
    InNfcBlock([HAL_NFC_CONFIG_DEBUG_PIN_ENABLED], k, d);
    assert [NFC_HAL_ENABLED] + [HAL_NFC_CONFIG_DEBUG_PIN_ENABLED] == IN_PINS;
  }

  lemma EntryDepth(k: Macro)
    requires EntryOf(k).Some?
    ensures var around := EntryOf(k).value.around;
            around == [] || |around| == 1 || around == IN_LOG || around == IN_PINS
  {
  }

  lemma EntryDeclared(k: Macro)
    requires EntryOf(k).Some?
    ensures Declares(VISIBLE_ONCE, EntryOf(k).value.around, k, EntryOf(k).value.default)
  {
    var entry := EntryOf(k).value;
    if entry.around == [] {
      OutermostDeclared(k);
    } else if entry.around == IN_LOG {
      LogOptionDeclared(k, entry.default);
    } else if entry.around == IN_PINS {
      PinOptionDeclared(k, entry.default);
    } else if entry.around == [NFC_HAL_ENABLED] {
      NfcOptionDeclared(k, entry.default);
    } else {
      EntryDepth(k);
      SwitchedEntry(k);
      SwitchedDeclared(k, entry.around[0]);
      assert entry.around == [entry.around[0]];
    }
  }

  lemma AroundAreSwitches(k: Macro, a: Macro)
    requires EntryOf(k).Some? && a in EntryOf(k).value.around
    ensures !NfcSetting(a)
  {
  }

  lemma DeclaredHasLine(k: Macro)
    requires k in Keys(VISIBLE_ONCE)
    ensures FileLine(k) > 0
  {
    DriversSpan();
    FirstNfcSpan();
    InLineOrderThen(DRIVERS, FIRST_NFC, 0);
    InLineOrderSeparate(VISIBLE_ONCE, 0);
  }

  lemma NoEntryNoLine(k: Macro)
    requires EntryOf(k).None?
    ensures FileLine(k) == 0
  {
  }

  lemma NoEntryUndefined(overrides: Config, k: Macro)
    requires EntryOf(k).None? && k !in overrides
    ensures k !in Resolve(VISIBLE_ONCE, overrides)
  {
    var env := Resolve(VISIBLE_ONCE, overrides);
    ResolveIsMeaning(VISIBLE_ONCE, overrides);
    assert Find(env, k) == Expected(VISIBLE_ONCE, overrides, env, k);
    var path := SelectSound(VISIBLE_ONCE, env, k);
    if Select(VISIBLE_ONCE, env, k).Some? {
      DeclaredKey(VISIBLE_ONCE, path, k, Select(VISIBLE_ONCE, env, k).value);
      DeclaredHasLine(k);
      NoEntryNoLine(k);
    }
  }

  lemma SeenFinds(overrides: Config, k: Macro)
    ensures Find(Resolve(VISIBLE_ONCE, overrides), k) == Final(overrides, k)
  {
    var seen := Resolve(VISIBLE_ONCE, overrides);
    if EntryOf(k).Some? {
      var entry := EntryOf(k).value;
      VisibleOnceDistinct();
      EntryDeclared(k);
      ResolveDistinct(VISIBLE_ONCE, overrides, entry.around, k, entry.default);
      forall a | a in entry.around
        ensures Value(seen, a) == Value(overrides, a)
      {
        AroundAreSwitches(k, a);
        OnlyOverridesAreOn(overrides, a);
      }
    } else {
      ResolveExtends(VISIBLE_ONCE, overrides);
      if k !in overrides {
        NoEntryUndefined(overrides, k);
      }
    }
  }

  // ---------------------------------------------------------------------
  // Exactly which macros a build defines, and to what
  // ---------------------------------------------------------------------

  /** Every macro the checks can see, in every SDK file, under all overrides. */
  lemma BuildFinds(f: Forest<Macro>, overrides: Config, k: Macro)
    requires SdkFile(f) && Visible(k)
    ensures Find(Resolve(f, overrides), k) == Final(overrides, k)
  {
    WhatTheChecksSee(f, overrides);
    SeenFinds(overrides, k);
    assert Find(Resolve(f, overrides), k) == Find(Resolve(VISIBLE_ONCE, overrides), k);
  }

  lemma FinalOutermost(overrides: Config, k: Macro)
    requires k in {CLOCK_ENABLED, COMP_ENABLED, EGU_ENABLED, I2S_ENABLED, LPCOMP_ENABLED,
                   PERIPHERAL_RESOURCE_SHARING_ENABLED, RTC_ENABLED, SAADC_ENABLED, SPIS_ENABLED,
                   SPI_ENABLED, TIMER_ENABLED, TWIS_ENABLED, TWI_ENABLED, NFC_HAL_ENABLED}
    ensures Final(overrides, k) == Some(Value(overrides, k))
  {
  }

  /** These are always defined, to their override or to 0. */
  lemma OutermostDefined(f: Forest<Macro>, overrides: Config, k: Macro)
    requires SdkFile(f)
    requires k in {CLOCK_ENABLED, COMP_ENABLED, EGU_ENABLED, I2S_ENABLED, LPCOMP_ENABLED,
                   PERIPHERAL_RESOURCE_SHARING_ENABLED, RTC_ENABLED, SAADC_ENABLED, SPIS_ENABLED,
                   SPI_ENABLED, TIMER_ENABLED, TWIS_ENABLED, TWI_ENABLED, NFC_HAL_ENABLED}
    ensures Find(Resolve(f, overrides), k) == Some(Value(overrides, k))
  {
    BuildFinds(f, overrides, k);
    FinalOutermost(overrides, k);
  }

  lemma OneAround(overrides: Config, a: Macro)
    ensures AllNonzero(overrides, [a]) <==> Value(overrides, a) != 0
  {
    assert a in [a];
  }

  lemma FinalSwitched(overrides: Config, k: Macro, switch: Macro)
    requires UnderSwitch(k, switch)
    ensures Final(overrides, k) ==
              if k in overrides then Some(overrides[k])
              else if Value(overrides, switch) != 0 then Some(0)
              else None
  {
    OneAround(overrides, switch);
  }

  /** A driver under a switch is its override, else 0 if the switch is on, else
      undefined. */
  lemma SwitchedExactly(f: Forest<Macro>, overrides: Config, k: Macro, switch: Macro)
    requires SdkFile(f) && UnderSwitch(k, switch)
    ensures Find(Resolve(f, overrides), k) ==
              if k in overrides then Some(overrides[k])
              else if Value(overrides, switch) != 0 then Some(0)
              else None
  {
    BuildFinds(f, overrides, k);
    FinalSwitched(overrides, k, switch);
  }

  lemma FinalNotInFile(overrides: Config, k: Macro)
    requires k in {TWIM0_ENABLED, TWIM1_ENABLED, SPIM0_ENABLED, SPIM1_ENABLED, SPIM2_ENABLED, ADC_ENABLED}
    ensures Final(overrides, k) == Find(overrides, k)
  {
  }

  /** The file has no option for these: they are what the application says. */
  lemma NotInFileExactly(f: Forest<Macro>, overrides: Config, k: Macro)
    requires SdkFile(f)
    requires k in {TWIM0_ENABLED, TWIM1_ENABLED, SPIM0_ENABLED, SPIM1_ENABLED, SPIM2_ENABLED, ADC_ENABLED}
    ensures Find(Resolve(f, overrides), k) == Find(overrides, k)
  {
    BuildFinds(f, overrides, k);
    FinalNotInFile(overrides, k);
  }

  // ---------------------------------------------------------------------
  // The NFC block: its second copy never shows
  // ---------------------------------------------------------------------

  lemma TwoAround(overrides: Config, a: Macro, b: Macro)
    ensures AllNonzero(overrides, [a, b]) <==> Value(overrides, a) != 0 && Value(overrides, b) != 0
  {
    assert a in [a, b] && b in [a, b];
  }

  lemma FinalNfcOption(overrides: Config, k: Macro, d: int)
    requires (k == NFCT_CONFIG_IRQ_PRIORITY && d == 7) || (k == HAL_NFC_CONFIG_LOG_ENABLED && d == 0)
          || (k == HAL_NFC_CONFIG_DEBUG_PIN_ENABLED && d == 0)
    ensures Final(overrides, k) ==
              if k in overrides then Some(overrides[k])
              else if Value(overrides, NFC_HAL_ENABLED) != 0 then Some(d)
              else None
  {
    OneAround(overrides, NFC_HAL_ENABLED);
  }

  /** The settings directly under NFC. */
  lemma NfcOptionExactly(f: Forest<Macro>, overrides: Config, k: Macro, d: int)
    requires SdkFile(f)
    requires (k == NFCT_CONFIG_IRQ_PRIORITY && d == 7) || (k == HAL_NFC_CONFIG_LOG_ENABLED && d == 0)
          || (k == HAL_NFC_CONFIG_DEBUG_PIN_ENABLED && d == 0)
    ensures Find(Resolve(f, overrides), k) ==
              if k in overrides then Some(overrides[k])
              else if Value(overrides, NFC_HAL_ENABLED) != 0 then Some(d)
              else None
  {
    BuildFinds(f, overrides, k);
    FinalNfcOption(overrides, k, d);
  }

  lemma FinalNfcLog(overrides: Config, k: Macro, d: int)
    requires (k == HAL_NFC_CONFIG_LOG_LEVEL && d == 3) || (k == HAL_NFC_CONFIG_INFO_COLOR && d == 0)
          || (k == HAL_NFC_CONFIG_DEBUG_COLOR && d == 0)
    ensures Final(overrides, k) ==
              if k in overrides then Some(overrides[k])
              else if Value(overrides, NFC_HAL_ENABLED) != 0 && Value(overrides, HAL_NFC_CONFIG_LOG_ENABLED) != 0
              then Some(d)
              else None
  {
    TwoAround(overrides, NFC_HAL_ENABLED, HAL_NFC_CONFIG_LOG_ENABLED);
  }

  /** The settings of its logging. */
  lemma NfcLogExactly(f: Forest<Macro>, overrides: Config, k: Macro, d: int)
    requires SdkFile(f)
    requires (k == HAL_NFC_CONFIG_LOG_LEVEL && d == 3) || (k == HAL_NFC_CONFIG_INFO_COLOR && d == 0)
          || (k == HAL_NFC_CONFIG_DEBUG_COLOR && d == 0)
    ensures Find(Resolve(f, overrides), k) ==
              if k in overrides then Some(overrides[k])
              else if Value(overrides, NFC_HAL_ENABLED) != 0 && Value(overrides, HAL_NFC_CONFIG_LOG_ENABLED) != 0
              then Some(d)
              else None
  {
    BuildFinds(f, overrides, k);
    FinalNfcLog(overrides, k, d);
  }

  lemma FinalDebugPin(overrides: Config, k: Macro, d: int)
    requires FirstPin(k, d)
    ensures Final(overrides, k) ==
              if k in overrides then Some(overrides[k])
              else if Value(overrides, NFC_HAL_ENABLED) != 0 && Value(overrides, HAL_NFC_CONFIG_DEBUG_PIN_ENABLED) != 0
              then Some(d)
              else None
  {
    TwoAround(overrides, NFC_HAL_ENABLED, HAL_NFC_CONFIG_DEBUG_PIN_ENABLED);
  }

  /** In the whole file, second block included, a debugging pin is its override
      or, when NFC and its debugging pins are on, the default of the first
      block; otherwise it is undefined. */
  lemma DebugPinsKeepFirstDefaults(f: Forest<Macro>, overrides: Config, k: Macro, d: int)
    requires SdkFile(f) && FirstPin(k, d)
    ensures Find(Resolve(f, overrides), k) ==
              if k in overrides then Some(overrides[k])
              else if Value(overrides, NFC_HAL_ENABLED) != 0 && Value(overrides, HAL_NFC_CONFIG_DEBUG_PIN_ENABLED) != 0
              then Some(d)
              else None
  {
    BuildFinds(f, overrides, k);
    FinalDebugPin(overrides, k, d);
  }

  /** The file with its two NFC blocks exchanged. */
  const EXCHANGED: Forest<Macro> := Then(DRIVERS, Then(SECOND_NFC, FIRST_NFC))
  const SECOND_ONCE: Forest<Macro> := Then(DRIVERS, SECOND_NFC)

  lemma SecondOnceDistinct()
    ensures DistinctKeys(SECOND_ONCE)
  {
    DriversSpan();
    SecondNfcSpan();
    InLineOrderThen(DRIVERS, SECOND_NFC, 0);
    InLineOrderSeparate(SECOND_ONCE, 0);
    SeparateDistinct(SECOND_ONCE);
  }

  lemma SecondPinDeclared(k: Macro)
    requires EntryOf(k).Some? && EntryOf(k).value.around == IN_PINS
    ensures Declares(SECOND_PINS, [], k, 31)
  {
  }

  lemma SecondPinOptionDeclared(k: Macro)
    requires EntryOf(k).Some? && EntryOf(k).value.around == IN_PINS
    ensures Declares(SECOND_ONCE, IN_PINS, k, 31)
  {
    SecondPinDeclared(k);
    var inner := [HAL_NFC_CONFIG_DEBUG_PIN_ENABLED];
    DeclaredUnder(HAL_NFC_CONFIG_DEBUG_PIN_ENABLED, 0, SECOND_PINS, End, [], k, 31);
    assert inner + [] == inner && [HAL_NFC_CONFIG_DEBUG_PIN_ENABLED] + [] == inner;
    assert Declares(SECOND_NFC.children, inner, k, 31);
    DeclaredUnder(NFC_HAL_ENABLED, 0, SECOND_NFC.children, End, inner, k, 31);
    assert [NFC_HAL_ENABLED] + inner == IN_PINS;
    DeclaresThen(DRIVERS, SECOND_NFC, IN_PINS, k, 31);
  }

  lemma ExchangedReadsOnce(overrides: Config)
    ensures Resolve(EXCHANGED, overrides) == Resolve(SECOND_ONCE, overrides)
  {
    NfcSameShape();
    ThenEnd(FIRST_NFC);
    ThenEnd(SECOND_NFC);
    RepeatedBlockIsDead(DRIVERS, SECOND_NFC, End, FIRST_NFC, End, overrides);
  }

  lemma StaysOn(f: Forest<Macro>, overrides: Config, a: Macro)
    requires Value(overrides, a) != 0
    ensures Value(Resolve(f, overrides), a) != 0
  {
    ResolveExtends(f, overrides);
  }

  /** It is the order of the blocks that decides: were the second one first,
      every debugging pin not overridden would be 31. */
  lemma ExchangedPins(overrides: Config, k: Macro)
    requires k in {HAL_NFC_HCLOCK_ON_DEBUG_PIN, HAL_NFC_HCLOCK_OFF_DEBUG_PIN, HAL_NFC_NFC_EVENT_DEBUG_PIN,
                   HAL_NFC_DETECT_EVENT_DEBUG_PIN, HAL_NFC_TIMER4_EVENT_DEBUG_PIN}
    requires k !in overrides
    requires Value(overrides, NFC_HAL_ENABLED) != 0 && Value(overrides, HAL_NFC_CONFIG_DEBUG_PIN_ENABLED) != 0
    ensures Find(Resolve(EXCHANGED, overrides), k) == Some(31)
  {
    var env := Resolve(SECOND_ONCE, overrides);
    ExchangedReadsOnce(overrides);
    SecondOnceDistinct();
    SecondPinOptionDeclared(k);
    ResolveDistinct(SECOND_ONCE, overrides, IN_PINS, k, 31);
    StaysOn(SECOND_ONCE, overrides, NFC_HAL_ENABLED);
    StaysOn(SECOND_ONCE, overrides, HAL_NFC_CONFIG_DEBUG_PIN_ENABLED);
    TwoAround(env, NFC_HAL_ENABLED, HAL_NFC_CONFIG_DEBUG_PIN_ENABLED);
  }
}
