/** The checks of sdk_validation.h over a finished macro environment. */
module SdkValidation {
  import opened OptionForest
  import opened PairTests

  /** The macros the checks read, the NFC debugging options of the default
      configuration, and every other macro by name. */
  datatype Macro =
    | SAADC_ENABLED | ADC_ENABLED | I2S_ENABLED | COMP_ENABLED | LPCOMP_ENABLED | EGU_ENABLED
    | CLOCK_ENABLED | RTC2_ENABLED | TIMER3_ENABLED | TIMER4_ENABLED
    | PERIPHERAL_RESOURCE_SHARING_ENABLED
    | TWIM0_ENABLED | TWIS0_ENABLED | SPIM0_ENABLED | SPIS0_ENABLED | SPI0_ENABLED | TWI0_ENABLED
    | TWIM1_ENABLED | TWIS1_ENABLED | SPIM1_ENABLED | SPIS1_ENABLED | SPI1_ENABLED | TWI1_ENABLED
    | SPIM2_ENABLED | SPIS2_ENABLED | SPI2_ENABLED
    | NFC_HAL_ENABLED | NFCT_CONFIG_IRQ_PRIORITY
    | HAL_NFC_CONFIG_LOG_ENABLED | HAL_NFC_CONFIG_LOG_LEVEL
    | HAL_NFC_CONFIG_INFO_COLOR | HAL_NFC_CONFIG_DEBUG_COLOR
    | HAL_NFC_CONFIG_DEBUG_PIN_ENABLED
    | HAL_NFC_HCLOCK_ON_DEBUG_PIN | HAL_NFC_HCLOCK_OFF_DEBUG_PIN | HAL_NFC_NFC_EVENT_DEBUG_PIN
    | HAL_NFC_DETECT_EVENT_DEBUG_PIN | HAL_NFC_TIMER4_EVENT_DEBUG_PIN
    | SPI_ENABLED | SPIS_ENABLED | TWI_ENABLED | TWIS_ENABLED | TIMER_ENABLED | RTC_ENABLED
    | Other(name: string)

  type Config = Env<Macro>

  /** What the chip's peripheral header defines; a count it does not define
      reads as 0. */
  datatype Chip = Chip(
    saadc: bool, adc: bool, i2s: bool, comp: bool, lpcomp: bool, spis: bool, egu: bool,
    nfct: bool, twis: bool, rtcCount: nat, spiCount: nat, spisCount: nat, timerCount: nat)

  // ---------------------------------------------------------------------
  // Presence and number of instances
  // ---------------------------------------------------------------------

  predicate Positive(env: Config, k: Macro) {
    k in env && env[k] > 0
  }

  predicate PairPositive(env: Config, a: Macro, b: Macro) {
    (a in env || b in env) && Value(env, a) + Value(env, b) > 0
  }

  predicate PassesAvailability(env: Config, chip: Chip) {
    && (Positive(env, SAADC_ENABLED) ==> chip.saadc)
    && (Positive(env, ADC_ENABLED) ==> chip.adc)
    && (Positive(env, I2S_ENABLED) ==> chip.i2s)
    && (Positive(env, COMP_ENABLED) ==> chip.comp)
    && (Positive(env, LPCOMP_ENABLED) ==> chip.lpcomp)
    && (Positive(env, SPIS0_ENABLED) ==> chip.spis)
    && (Positive(env, EGU_ENABLED) ==> chip.egu)
    && (Positive(env, NFC_HAL_ENABLED) ==> chip.nfct)
  }

  predicate PassesCounts(env: Config, chip: Chip) {
    && (Positive(env, RTC2_ENABLED) ==> chip.rtcCount >= 2)
    && (PairPositive(env, TWIS0_ENABLED, TWIS1_ENABLED) ==> chip.twis)
    && (Positive(env, SPIS2_ENABLED) ==> chip.spisCount >= 2)
    && (PairPositive(env, TIMER3_ENABLED, TIMER4_ENABLED) ==> chip.timerCount >= 5)
  }

  predicate PassesPresence(env: Config, chip: Chip) {
    PassesAvailability(env, chip) && PassesCounts(env, chip)
  }

  /** Whether the chip has what a macro turns on, as far as the file checks. */
  predicate Supports(chip: Chip, k: Macro) {
    match k
    case SAADC_ENABLED => chip.saadc
    case ADC_ENABLED => chip.adc
    case I2S_ENABLED => chip.i2s
    case COMP_ENABLED => chip.comp
    case LPCOMP_ENABLED => chip.lpcomp
    case SPIS0_ENABLED => chip.spis
    case EGU_ENABLED => chip.egu
    case NFC_HAL_ENABLED => chip.nfct
    case TWIS0_ENABLED | TWIS1_ENABLED => chip.twis
    case RTC2_ENABLED => chip.rtcCount >= 2
    case SPIS2_ENABLED => chip.spisCount >= 2
    case TIMER3_ENABLED | TIMER4_ENABLED => chip.timerCount >= 5
    case _ => true
  }

  /** Everything turned on is there, as far as the file checks. */
  ghost predicate Supported(env: Config, chip: Chip) {
    forall k :: Value(env, k) != 0 ==> Supports(chip, k)
  }

  lemma PositiveIsOn(env: Config, k: Macro)
    requires Natural(env)
    ensures Positive(env, k) <==> Value(env, k) != 0
  {
  }

  lemma EitherPositive(env: Config, a: Macro, b: Macro)
    requires Natural(env)
    ensures PairPositive(env, a, b) <==> Value(env, a) != 0 || Value(env, b) != 0
  {
  }

  lemma OnIsSupported(env: Config, chip: Chip)
    requires Supported(env, chip)
    ensures forall k :: Positive(env, k) ==> Supports(chip, k)
  {
    forall k | Positive(env, k)
      ensures Supports(chip, k)
    {
      assert Value(env, k) != 0;
    }
  }

  lemma SupportedIsAvailable(env: Config, chip: Chip)
    requires Supported(env, chip)
    ensures PassesAvailability(env, chip)
  {
    OnIsSupported(env, chip);
  }

  lemma SupportedIsCounted(env: Config, chip: Chip)
    requires Natural(env) && Supported(env, chip)
    ensures PassesCounts(env, chip)
  {
    OnIsSupported(env, chip);
    EitherPositive(env, TWIS0_ENABLED, TWIS1_ENABLED);
    EitherPositive(env, TIMER3_ENABLED, TIMER4_ENABLED);
  }

  lemma PresentIsSupported(env: Config, chip: Chip, k: Macro)
    requires Natural(env) && PassesPresence(env, chip) && Value(env, k) != 0
    ensures Supports(chip, k)
  {
    PositiveIsOn(env, k);
    EitherPositive(env, TWIS0_ENABLED, TWIS1_ENABLED);
    EitherPositive(env, TIMER3_ENABLED, TIMER4_ENABLED);
  }

  /** The unconditional checks pass exactly when everything turned on is
      supported. */
  lemma PresenceExactly(env: Config, chip: Chip)
    requires Natural(env)
    ensures PassesPresence(env, chip) <==> Supported(env, chip)
  {
    if PassesPresence(env, chip) {
      forall k | Value(env, k) != 0
        ensures Supports(chip, k)
      {
        PresentIsSupported(env, chip, k);
      }
    }
    if Supported(env, chip) {
      SupportedIsAvailable(env, chip);
      SupportedIsCounted(env, chip);
    }
  }

  // ---------------------------------------------------------------------
  // Shared peripherals
  // ---------------------------------------------------------------------

  const DRIVERS_0: seq<Macro> :=
    [TWIM0_ENABLED, TWIS0_ENABLED, SPIM0_ENABLED, SPIS0_ENABLED, SPI0_ENABLED, TWI0_ENABLED]
  const DRIVERS_1: seq<Macro> :=
    [TWIM1_ENABLED, TWIS1_ENABLED, SPIM1_ENABLED, SPIS1_ENABLED, SPI1_ENABLED, TWI1_ENABLED]
  const GROUP_0: set<Macro> := set k | k in DRIVERS_0
  const GROUP_1: set<Macro> := set k | k in DRIVERS_1
  const GROUP_2: set<Macro> := {SPIM2_ENABLED, SPI2_ENABLED, SPIS2_ENABLED}

  const TESTS_0: seq<PairTest<Macro>> :=
    [ Pair(TWIM0_ENABLED, TWIS0_ENABLED), Pair(TWIM0_ENABLED, SPIM0_ENABLED),
      Pair(TWIM0_ENABLED, SPIS0_ENABLED), Pair(TWIM0_ENABLED, SPI0_ENABLED),
      Pair(TWIM0_ENABLED, TWI0_ENABLED), Pair(TWIS0_ENABLED, SPIM0_ENABLED),
      Pair(TWIS0_ENABLED, SPIS0_ENABLED), Pair(TWIS0_ENABLED, SPI0_ENABLED),
      Pair(TWIS0_ENABLED, TWI0_ENABLED), Pair(SPIM0_ENABLED, SPIS0_ENABLED),
      Pair(SPIM0_ENABLED, SPI0_ENABLED), Pair(SPIM0_ENABLED, TWI0_ENABLED),
      Pair(SPIS0_ENABLED, SPI0_ENABLED), Pair(SPIS0_ENABLED, TWI0_ENABLED),
      Pair(SPI0_ENABLED, TWI0_ENABLED) ]

  const TESTS_1: seq<PairTest<Macro>> :=
    [ Pair(TWIM1_ENABLED, TWIS1_ENABLED), Pair(TWIM1_ENABLED, SPIM1_ENABLED),
      Pair(TWIM1_ENABLED, SPIS1_ENABLED), Pair(TWIM1_ENABLED, SPI1_ENABLED),
      Pair(TWIM1_ENABLED, TWI1_ENABLED), Pair(TWIS1_ENABLED, SPIM1_ENABLED),
      Pair(TWIS1_ENABLED, SPIS1_ENABLED), Pair(TWIS1_ENABLED, SPI1_ENABLED),
      Pair(TWIS1_ENABLED, TWI1_ENABLED), Pair(SPIM1_ENABLED, SPIS1_ENABLED),
      Pair(SPIM1_ENABLED, SPI1_ENABLED), Pair(SPIM1_ENABLED, TWI1_ENABLED),
      Pair(SPIS1_ENABLED, SPI1_ENABLED), Pair(SPIS1_ENABLED, TWI1_ENABLED),
      Pair(SPI1_ENABLED, TWI1_ENABLED) ]

  /** The last two tests sum SPI2 and SPIS2 instead of the pair they ask for. */
  const TESTS_2: seq<PairTest<Macro>> :=
    [ Pair(SPI2_ENABLED, SPIS2_ENABLED),
      PairTest(SPIM2_ENABLED, SPIS2_ENABLED, SPI2_ENABLED, SPIS2_ENABLED),
      PairTest(SPIM2_ENABLED, SPI2_ENABLED, SPI2_ENABLED, SPIS2_ENABLED) ]

  predicate SharingDisabled(env: Config) {
    PERIPHERAL_RESOURCE_SHARING_ENABLED in env && env[PERIPHERAL_RESOURCE_SHARING_ENABLED] == 0
  }

  predicate PassesSharing(env: Config) {
    SharingDisabled(env) ==> Passes(TESTS_0, env) && Passes(TESTS_1, env) && Passes(TESTS_2, env)
  }

  // ---------------------------------------------------------------------
  // NFC and the comparators
  // ---------------------------------------------------------------------

  predicate PassesNfc(env: Config, chip: Chip) {
    chip.nfct ==>
      && !(NFC_HAL_ENABLED in env && CLOCK_ENABLED in env &&
           env[NFC_HAL_ENABLED] != 0 && env[CLOCK_ENABLED] == 0)
      && !Fires(Pair(NFC_HAL_ENABLED, TIMER4_ENABLED), env)
  }

  predicate PassesComparators(env: Config, chip: Chip) {
    chip.lpcomp ==>
      !(Value(env, PERIPHERAL_RESOURCE_SHARING_ENABLED) == 0 &&
        Fires(Pair(COMP_ENABLED, LPCOMP_ENABLED), env))
  }

  /** No `#error` of the file is reached. */
  predicate Accepted(env: Config, chip: Chip) {
    && PassesPresence(env, chip)
    && PassesSharing(env)
    && PassesNfc(env, chip)
    && PassesComparators(env, chip)
  }

  // ---------------------------------------------------------------------
  // Exactly which groups the sharing tests protect
  // ---------------------------------------------------------------------

  lemma Tests0ListEveryPair()
    ensures TESTS_0 == AllPairs(DRIVERS_0)
  {
    AllPairsOfSix(TWIM0_ENABLED, TWIS0_ENABLED, SPIM0_ENABLED, SPIS0_ENABLED, SPI0_ENABLED, TWI0_ENABLED);
  }

  lemma Tests1ListEveryPair()
    ensures TESTS_1 == AllPairs(DRIVERS_1)
  {
    AllPairsOfSix(TWIM1_ENABLED, TWIS1_ENABLED, SPIM1_ENABLED, SPIS1_ENABLED, SPI1_ENABLED, TWI1_ENABLED);
  }

  lemma TestsCoverInstances0And1()
    ensures Exclusive(TESTS_0, GROUP_0)
    ensures Exclusive(TESTS_1, GROUP_1)
  {
    Tests0ListEveryPair();
    Tests1ListEveryPair();
    AllPairsExclusive(DRIVERS_0);
    AllPairsExclusive(DRIVERS_1);
  }

  /** The tests for instance 2 do not keep it exclusive. */
  lemma TestsMissInstance2()
    ensures !Exclusive(TESTS_2, GROUP_2)
  {
    assert !Tested(TESTS_2, SPIM2_ENABLED, SPIS2_ENABLED);
    assert SPIM2_ENABLED in GROUP_2 && SPIS2_ENABLED in GROUP_2;
    ExclusiveExactly(TESTS_2, GROUP_2);
  }

  /** At least two of the three macros of instance 2 are defined. */
  predicate TwoDefined(env: Config) {
    || (SPI2_ENABLED in env && SPIS2_ENABLED in env)
    || (SPIM2_ENABLED in env && SPIS2_ENABLED in env)
    || (SPIM2_ENABLED in env && SPI2_ENABLED in env)
  }

  /** They see nothing but the sum of SPI2 and SPIS2, and only when two of the
      three are defined: SPIM2 itself may have any value. */
  lemma Tests2Exactly(env: Config)
    requires Natural(env)
    ensures Passes(TESTS_2, env) <==>
            (TwoDefined(env) ==> Value(env, SPI2_ENABLED) + Value(env, SPIS2_ENABLED) <= 1)
  {
    if Passes(TESTS_2, env) {
      assert !Fires(TESTS_2[0], env) && !Fires(TESTS_2[1], env) && !Fires(TESTS_2[2], env);
    }
  }

  /** What they leave open is exactly SPIM2 beside one of the other two. */
  lemma Instance2Exactly(env: Config)
    requires Natural(env) && Passes(TESTS_2, env)
    ensures AtMostOne(GROUP_2, env) <==>
            Value(env, SPIM2_ENABLED) == 0 || Value(env, SPI2_ENABLED) + Value(env, SPIS2_ENABLED) == 0
  {
    Tests2Exactly(env);
    if AtMostOne(GROUP_2, env) {
      assert SPIM2_ENABLED in GROUP_2 && SPI2_ENABLED in GROUP_2 && SPIS2_ENABLED in GROUP_2;
    }
  }
}
