/** Builds the checks let through or refuse against their own messages, and
    exactly when they do. */
module SdkFindings {
  import opened OptionForest
  import opened PairTests
  import opened SdkAcceptance
  import opened SdkBuild
  import opened SdkMacros
  import opened SdkOptions
  import opened SdkSmallBuilds
  import opened SdkValidation

  const NRF51: Chip := Chip(
    saadc := false, adc := true, i2s := false, comp := false, lpcomp := true, spis := true, egu := false,
    nfct := false, twis := false, rtcCount := 2, spiCount := 2, spisCount := 1, timerCount := 3)

  const NRF52: Chip := Chip(
    saadc := true, adc := false, i2s := true, comp := true, lpcomp := true, spis := true, egu := true,
    nfct := true, twis := true, rtcCount := 3, spiCount := 3, spisCount := 3, timerCount := 5)

  /** A whole build of the default configuration with these overrides. */
  function BuildOf(overrides: Config): Config {
    Resolve(VISIBLE, overrides)
  }

  /** Without overrides the default configuration is accepted on every chip. */
  lemma DefaultBuildAccepted(chip: Chip)
    ensures Accepted(BuildOf(map[]), chip)
  {
    var none: Config := map[];
    VisibleIsSdkFile();
    FlagBuildExactly(VISIBLE, none, chip);
    assert forall k :: Value(none, k) == 0;
  }

  // ---------------------------------------------------------------------
  // Instance 2 is not protected
  // ---------------------------------------------------------------------

  lemma Instance2Apart(env: Config)
    requires AtMostOne(SPI2_DRIVERS, env)
    ensures AtMostOne(GROUP_2, env) <==>
            Value(env, SPIM2_ENABLED) == 0 || (Value(env, SPI2_ENABLED) == 0 && Value(env, SPIS2_ENABLED) == 0)
  {
    assert SPI2_ENABLED in SPI2_DRIVERS && SPIS2_ENABLED in SPI2_DRIVERS;
    assert SPIM2_ENABLED in GROUP_2 && SPI2_ENABLED in GROUP_2 && SPIS2_ENABLED in GROUP_2;
  }

  /** An accepted build with sharing off keeps instance 2 to one driver exactly
      when SPIM2 is off or both others are. */
  lemma BuildInstance2Exactly(f: Forest<Macro>, overrides: Config, chip: Chip)
    requires SdkFile(f) && Natural(overrides) && SharingOff(overrides)
    requires Accepted(Resolve(f, overrides), chip)
    ensures AtMostOne(GROUP_2, Resolve(f, overrides)) <==>
            Value(overrides, SPIM2_ENABLED) == 0 ||
            (Value(overrides, SPI2_ENABLED) == 0 && Value(overrides, SPIS2_ENABLED) == 0)
  {
    AcceptedBuildIsSafe(f, overrides, chip);
    BuildValue(f, overrides, PERIPHERAL_RESOURCE_SHARING_ENABLED);
    BuildValue(f, overrides, SPIM2_ENABLED);
    BuildValue(f, overrides, SPI2_ENABLED);
    BuildValue(f, overrides, SPIS2_ENABLED);
    Instance2Apart(Resolve(f, overrides));
  }

  /** Every accepted build that overrides exactly these macros, sharing off,
      keeps instance 2 to one driver. */
  ghost predicate Instance2Kept(f: Forest<Macro>, keys: set<Macro>, chip: Chip) {
    forall overrides: Config ::
      overrides.Keys == keys && Natural(overrides) && SharingOff(overrides) &&
      Accepted(Resolve(f, overrides), chip)
      ==> AtMostOne(GROUP_2, Resolve(f, overrides))
  }

  /** The configuration file never defines SPIM2. So which macros an application
      overrides decides whether instance 2 is protected: it is not exactly when
      SPIM2 is among them beside SPI2, or beside SPIS2 on a chip that passes the
      check for SPIS2. */
  lemma Instance2KeptExactly(f: Forest<Macro>, keys: set<Macro>, chip: Chip)
    requires SdkFile(f)
    ensures Instance2Kept(f, keys, chip) <==>
            (SPIM2_ENABLED in keys ==>
               SPI2_ENABLED !in keys && (SPIS2_ENABLED !in keys || !Supports(chip, SPIS2_ENABLED)))
  {
    if SPIM2_ENABLED in keys && SPI2_ENABLED in keys {
      OverlapBuild(f, keys, SPI2_ENABLED, chip);
    } else if SPIM2_ENABLED in keys && SPIS2_ENABLED in keys && Supports(chip, SPIS2_ENABLED) {
      OverlapBuild(f, keys, SPIS2_ENABLED, chip);
    } else {
      forall overrides: Config |
        overrides.Keys == keys && Natural(overrides) && SharingOff(overrides) &&
        Accepted(Resolve(f, overrides), chip)
        ensures AtMostOne(GROUP_2, Resolve(f, overrides))
      {
        BuildAcceptedExactly(f, overrides, chip);
        BuildInstance2Exactly(f, overrides, chip);
        assert Value(overrides, SPIS2_ENABLED) != 0 ==> Supports(chip, SPIS2_ENABLED);
      }
    }
  }

  /** SPIM2 and one other driver of its instance on, everything else off. */
  function Overlap(keys: set<Macro>, other: Macro): Config {
    map k | k in keys :: if k == SPIM2_ENABLED || k == other then 1 else 0
  }

  lemma OverlapAllowed(keys: set<Macro>, other: Macro, chip: Chip)
    requires other == SPI2_ENABLED || other == SPIS2_ENABLED
    requires Supports(chip, other)
    ensures Supported(Overlap(keys, other), chip) && Safe(Overlap(keys, other))
  {
  }

  lemma OverlapBuild(f: Forest<Macro>, keys: set<Macro>, other: Macro, chip: Chip)
    requires SdkFile(f) && SPIM2_ENABLED in keys && other in keys
    requires other == SPI2_ENABLED || other == SPIS2_ENABLED
    requires Supports(chip, other)
    ensures var overrides := Overlap(keys, other);
            && overrides.Keys == keys && Natural(overrides) && SharingOff(overrides)
            && Accepted(Resolve(f, overrides), chip) && !AtMostOne(GROUP_2, Resolve(f, overrides))
    ensures !Instance2Kept(f, keys, chip)
  {
    var overrides := Overlap(keys, other);
    OverlapAllowed(keys, other, chip);
    FlagBuildExactly(f, overrides, chip);
    BuildInstance2Exactly(f, overrides, chip);
  }

  /** A whole build, sharing disabled, accepted with SPIM2 and SPIS2 both on. */
  lemma Instance2BuildOverlaps()
    ensures var env := BuildOf(map[SPIM2_ENABLED := 1, SPIS2_ENABLED := 1]);
            && Accepted(env, NRF52) && SharingDisabled(env) && !AtMostOne(GROUP_2, env)
  {
    var overrides: Config := map[SPIM2_ENABLED := 1, SPIS2_ENABLED := 1];
    var keys := {SPIM2_ENABLED, SPIS2_ENABLED};
    assert Overlap(keys, SPIS2_ENABLED) == overrides;
    VisibleIsSdkFile();
    OverlapBuild(VISIBLE, keys, SPIS2_ENABLED, NRF52);
    OutermostDefined(VISIBLE, overrides, PERIPHERAL_RESOURCE_SHARING_ENABLED);
  }

  // ---------------------------------------------------------------------
  // Counts of instances
  // ---------------------------------------------------------------------

  /** Among accepted builds only chips fitted for it have `k` on. */
  ghost predicate Protects(f: Forest<Macro>, k: Macro, chip: Chip, fitted: bool) {
    forall overrides: Config ::
      Natural(overrides) && Accepted(Resolve(f, overrides), chip) && Value(Resolve(f, overrides), k) != 0
      ==> fitted
  }

  /** The checks protect a switch exactly when the chip is fitted for it or the
      check written for it refuses the chip. */
  lemma ProtectsExactly(f: Forest<Macro>, k: Macro, chip: Chip, fitted: bool)
    requires SdkFile(f) && Visible(k) && !NfcSetting(k) && k != NFC_HAL_ENABLED
    ensures Protects(f, k, chip, fitted) <==> fitted || !Supports(chip, k)
  {
    if Supports(chip, k) {
      var overrides: Config := map[k := 1];
      SwitchAllowed(k, chip);
      FlagBuildExactly(f, overrides, chip);
      BuildValue(f, overrides, k);
      assert Natural(overrides);
    } else {
      forall overrides: Config | Natural(overrides) && Accepted(Resolve(f, overrides), chip)
        ensures Value(Resolve(f, overrides), k) == 0
      {
        BuildAcceptedExactly(f, overrides, chip);
        BuildValue(f, overrides, k);
      }
    }
  }

  /** The check for RTC2 asks for two instances where the third is meant: it
      keeps RTC2 off chips without it exactly when the chip does not have
      precisely two. */
  lemma Rtc2CheckExactly(f: Forest<Macro>, chip: Chip)
    requires SdkFile(f)
    ensures Protects(f, RTC2_ENABLED, chip, chip.rtcCount >= 3) <==> chip.rtcCount != 2
  {
    ProtectsExactly(f, RTC2_ENABLED, chip, chip.rtcCount >= 3);
  }

  /** So does the check for SPIS2. */
  lemma Spis2CheckExactly(f: Forest<Macro>, chip: Chip)
    requires SdkFile(f)
    ensures Protects(f, SPIS2_ENABLED, chip, chip.spisCount >= 3) <==> chip.spisCount != 2
  {
    ProtectsExactly(f, SPIS2_ENABLED, chip, chip.spisCount >= 3);
  }

  /** That check speaks of SPI2 as well but never looks at it. */
  lemma Spi2CheckExactly(f: Forest<Macro>, chip: Chip)
    requires SdkFile(f)
    ensures Protects(f, SPI2_ENABLED, chip, chip.spiCount >= 3) <==> chip.spiCount >= 3
  {
    ProtectsExactly(f, SPI2_ENABLED, chip, chip.spiCount >= 3);
  }

  /** What is refused for want of a peripheral on the chips there are. */
  lemma KnownChipsRefuse(k: Macro)
    ensures !Supports(NRF51, k) <==>
            k in {SAADC_ENABLED, I2S_ENABLED, COMP_ENABLED, EGU_ENABLED, NFC_HAL_ENABLED, TWIS0_ENABLED,
                  TWIS1_ENABLED, SPIS2_ENABLED, TIMER3_ENABLED, TIMER4_ENABLED}
    ensures !Supports(NRF52, k) <==> k == ADC_ENABLED
  {
  }

  /** On the chips there are, only the nRF51 is exposed, to RTC2 and SPI2; the
      check for SPIS2 is right on both, as neither has two SPI slaves. */
  lemma KnownChips(f: Forest<Macro>)
    requires SdkFile(f)
    ensures Protects(f, SPIS2_ENABLED, NRF51, NRF51.spisCount >= 3)
    ensures Protects(f, SPIS2_ENABLED, NRF52, NRF52.spisCount >= 3)
    ensures Protects(f, RTC2_ENABLED, NRF52, NRF52.rtcCount >= 3)
    ensures Protects(f, SPI2_ENABLED, NRF52, NRF52.spiCount >= 3)
    ensures !Protects(f, RTC2_ENABLED, NRF51, NRF51.rtcCount >= 3)
    ensures !Protects(f, SPI2_ENABLED, NRF51, NRF51.spiCount >= 3)
  {
    Spis2CheckExactly(f, NRF51);
    Spis2CheckExactly(f, NRF52);
    Rtc2CheckExactly(f, NRF51);
    Rtc2CheckExactly(f, NRF52);
    Spi2CheckExactly(f, NRF51);
    Spi2CheckExactly(f, NRF52);
  }

  const THIRD_INSTANCES: Config :=
    map[RTC_ENABLED := 1, RTC2_ENABLED := 1, SPI_ENABLED := 1, SPI2_ENABLED := 1]

  lemma ThirdInstancesFlags()
    ensures Natural(THIRD_INSTANCES) && forall k :: Value(THIRD_INSTANCES, k) <= 1
    ensures Value(THIRD_INSTANCES, RTC2_ENABLED) == 1 && Value(THIRD_INSTANCES, SPI2_ENABLED) == 1
  {
  }

  lemma ThirdInstancesSupported()
    ensures Supported(THIRD_INSTANCES, NRF51)
  {
  }

  lemma DriversApart(k: Macro)
    requires k in DRIVERS_0 || k in DRIVERS_1
    ensures k !in THIRD_INSTANCES
  {
  }

  lemma OthersApart(k: Macro)
    requires k in GROUP_2 || k in COMPARATORS || k in TIMER4_USERS
    requires k != SPI2_ENABLED
    ensures k !in THIRD_INSTANCES
  {
  }

  lemma ThirdInstancesApart(k: Macro)
    requires k in RIVALS && k != SPI2_ENABLED
    ensures Value(THIRD_INSTANCES, k) == 0
  {
    if k in GROUP_0 || k in GROUP_1 {
      DriversApart(k);
    } else {
      OthersApart(k);
    }
  }

  lemma ThirdInstancesSafe()
    ensures Safe(THIRD_INSTANCES)
  {
    forall k | k in RIVALS && k != SPI2_ENABLED
      ensures Value(THIRD_INSTANCES, k) == 0
    {
      ThirdInstancesApart(k);
    }
    GroupsWithinRivals();
    AtMostOneAround(GROUP_0, THIRD_INSTANCES, SPI2_ENABLED);
    AtMostOneAround(GROUP_1, THIRD_INSTANCES, SPI2_ENABLED);
    AtMostOneAround(SPI2_DRIVERS, THIRD_INSTANCES, SPI2_ENABLED);
    AtMostOneAround(COMPARATORS, THIRD_INSTANCES, SPI2_ENABLED);
    AtMostOneAround(TIMER4_USERS, THIRD_INSTANCES, SPI2_ENABLED);
    assert NFC_HAL_ENABLED in TIMER4_USERS;
  }

  /** On the nRF51 chips, with two real-time counters and two SPI masters, a
      whole build that turns the third of each on is accepted. */
  lemma ThirdInstancesOnNrf51()
    ensures var env := BuildOf(THIRD_INSTANCES);
            Accepted(env, NRF51) && Value(env, RTC2_ENABLED) == 1 && Value(env, SPI2_ENABLED) == 1
  {
    VisibleIsSdkFile();
    ThirdInstancesFlags();
    ThirdInstancesSupported();
    ThirdInstancesSafe();
    FlagBuildExactly(VISIBLE, THIRD_INSTANCES, NRF51);
    BuildValue(VISIBLE, THIRD_INSTANCES, RTC2_ENABLED);
    BuildValue(VISIBLE, THIRD_INSTANCES, SPI2_ENABLED);
  }

  // ---------------------------------------------------------------------
  // Switching the clock or sharing off in an accepted build
  // ---------------------------------------------------------------------

  lemma SwitchedOffBelow(high: Config, k: Macro)
    requires Natural(high) && k in high
    ensures Below(high[k := 0], high) && Natural(high[k := 0])
    ensures high[k := 0].Keys == high.Keys
  {
    assert high[k := 0].Keys == high.Keys + {k};
  }

  /** Switching the clock off breaks an accepted build exactly when it uses NFC. */
  lemma ClockOffExactly(f: Forest<Macro>, high: Config, chip: Chip)
    requires SdkFile(f) && Natural(high) && CLOCK_ENABLED in high
    requires Accepted(Resolve(f, high), chip)
    ensures Accepted(Resolve(f, high[CLOCK_ENABLED := 0]), chip) <==> Value(high, NFC_HAL_ENABLED) == 0
  {
    SwitchedOffBelow(high, CLOCK_ENABLED);
    LoweringExactly(f, high[CLOCK_ENABLED := 0], high, chip);
  }

  /** Withdrawing sharing breaks an accepted build exactly when something is
      shared or a switch above 1 has a rival defined. */
  lemma SharingOffExactly(f: Forest<Macro>, high: Config, chip: Chip)
    requires SdkFile(f) && Natural(high) && PERIPHERAL_RESOURCE_SHARING_ENABLED in high
    requires Accepted(Resolve(f, high), chip)
    ensures var low := high[PERIPHERAL_RESOURCE_SHARING_ENABLED := 0];
            Accepted(Resolve(f, low), chip) <==> Unshared(high) && UnsharedTame(Completed(low), chip)
  {
    var low := high[PERIPHERAL_RESOURCE_SHARING_ENABLED := 0];
    SwitchedOffBelow(high, PERIPHERAL_RESOURCE_SHARING_ENABLED);
    BuildAcceptedExactly(f, low, chip);
    LoweringExactly(f, low, high, chip);
    BuildAcceptedExactly(f, high, chip);
    SharingIsNoRival();
    UnsharedOfValues(low, high);
    assert SharingOff(low);
    CompletedValues(low);
    assert SharingOff(Completed(low));
  }

  /** Lowering the clock breaks a build that uses NFC. */
  lemma LoweringClockBreaks()
    ensures Accepted(BuildOf(NFC_BUILD), NRF52)
    ensures !Accepted(BuildOf(NFC_BUILD[CLOCK_ENABLED := 0]), NRF52)
  {
    VisibleIsSdkFile();
    NfcBuildFlags();
    NfcAcceptedExactly(VISIBLE, NRF52);
    ClockOffExactly(VISIBLE, NFC_BUILD, NRF52);
  }

  const SHARED_BUILD: Config :=
    map[COMP_ENABLED := 1, LPCOMP_ENABLED := 1, PERIPHERAL_RESOURCE_SHARING_ENABLED := 1]

  lemma SharedBuildAllowed()
    ensures Natural(SHARED_BUILD) && forall k :: Value(SHARED_BUILD, k) <= 1
    ensures Supported(SHARED_BUILD, NRF52) && Safe(SHARED_BUILD) && !Unshared(SHARED_BUILD)
  {
    assert COMP_ENABLED in COMPARATORS && LPCOMP_ENABLED in COMPARATORS;
    assert Value(SHARED_BUILD, COMP_ENABLED) == 1 && Value(SHARED_BUILD, LPCOMP_ENABLED) == 1;
  }

  /** So does turning sharing off under two comparators. */
  lemma LoweringSharingBreaks()
    ensures Accepted(BuildOf(SHARED_BUILD), NRF52)
    ensures !Accepted(BuildOf(SHARED_BUILD[PERIPHERAL_RESOURCE_SHARING_ENABLED := 0]), NRF52)
  {
    VisibleIsSdkFile();
    SharedBuildAllowed();
    FlagBuildExactly(VISIBLE, SHARED_BUILD, NRF52);
    SharingOffExactly(VISIBLE, SHARED_BUILD, NRF52);
  }
}
