/** The default configuration read after an application's overrides, and the
    checks run on the result. */
module SdkBuild {
  import opened OptionForest
  import opened PairTests
  import opened Preprocessor
  import opened SdkAcceptance
  import opened SdkMacros
  import opened SdkOptions
  import opened SdkValidation

  // ---------------------------------------------------------------------
  // The checks look at visible macros only
  // ---------------------------------------------------------------------

  lemma SameFires(t: PairTest<Macro>, a: Config, b: Config)
    requires AgreeOn(Visible, a, b)
    requires Visible(t.needA) && Visible(t.needB) && Visible(t.sumA) && Visible(t.sumB)
    ensures Fires(t, a) <==> Fires(t, b)
  {
    assert Find(a, t.needA) == Find(b, t.needA) && Find(a, t.needB) == Find(b, t.needB);
    assert Find(a, t.sumA) == Find(b, t.sumA) && Find(a, t.sumB) == Find(b, t.sumB);
  }

  lemma SamePositive(a: Config, b: Config, k: Macro)
    requires AgreeOn(Visible, a, b) && Visible(k)
    ensures Positive(a, k) <==> Positive(b, k)
    ensures Value(a, k) == Value(b, k) && (k in a <==> k in b)
  {
    assert Find(a, k) == Find(b, k);
  }

  lemma SameAvailability(a: Config, b: Config, chip: Chip)
    requires AgreeOn(Visible, a, b)
    ensures PassesAvailability(a, chip) <==> PassesAvailability(b, chip)
  {
    SamePositive(a, b, SAADC_ENABLED);
    SamePositive(a, b, ADC_ENABLED);
    SamePositive(a, b, I2S_ENABLED);
    SamePositive(a, b, COMP_ENABLED);
    SamePositive(a, b, LPCOMP_ENABLED);
    SamePositive(a, b, SPIS0_ENABLED);
    SamePositive(a, b, EGU_ENABLED);
    SamePositive(a, b, NFC_HAL_ENABLED);
  }

  lemma SamePairPositive(a: Config, b: Config, x: Macro, y: Macro)
    requires AgreeOn(Visible, a, b) && Visible(x) && Visible(y)
    ensures PairPositive(a, x, y) <==> PairPositive(b, x, y)
  {
    SamePositive(a, b, x);
    SamePositive(a, b, y);
  }

  lemma SameCounts(a: Config, b: Config, chip: Chip)
    requires AgreeOn(Visible, a, b)
    ensures PassesCounts(a, chip) <==> PassesCounts(b, chip)
  {
    SamePositive(a, b, RTC2_ENABLED);
    SamePairPositive(a, b, TWIS0_ENABLED, TWIS1_ENABLED);
    SamePositive(a, b, SPIS2_ENABLED);
    SamePairPositive(a, b, TIMER3_ENABLED, TIMER4_ENABLED);
  }

  lemma TestsVisible(t: PairTest<Macro>)
    requires t in TESTS_0 || t in TESTS_1 || t in TESTS_2
    ensures Visible(t.needA) && Visible(t.needB) && Visible(t.sumA) && Visible(t.sumB)
  {
  }

  lemma SamePasses(tests: seq<PairTest<Macro>>, a: Config, b: Config)
    requires AgreeOn(Visible, a, b)
    requires tests == TESTS_0 || tests == TESTS_1 || tests == TESTS_2
    ensures Passes(tests, a) <==> Passes(tests, b)
  {
    forall t | t in tests
      ensures Fires(t, a) <==> Fires(t, b)
    {
      TestsVisible(t);
      SameFires(t, a, b);
    }
  }

  lemma SameSharing(a: Config, b: Config)
    requires AgreeOn(Visible, a, b)
    ensures PassesSharing(a) <==> PassesSharing(b)
  {
    SamePositive(a, b, PERIPHERAL_RESOURCE_SHARING_ENABLED);
    SamePasses(TESTS_0, a, b);
    SamePasses(TESTS_1, a, b);
    SamePasses(TESTS_2, a, b);
  }

  lemma SameNfc(a: Config, b: Config, chip: Chip)
    requires AgreeOn(Visible, a, b)
    ensures PassesNfc(a, chip) <==> PassesNfc(b, chip)
  {
    SamePositive(a, b, NFC_HAL_ENABLED);
    SamePositive(a, b, CLOCK_ENABLED);
    SameFires(Pair(NFC_HAL_ENABLED, TIMER4_ENABLED), a, b);
  }

  lemma SameComparators(a: Config, b: Config, chip: Chip)
    requires AgreeOn(Visible, a, b)
    ensures PassesComparators(a, chip) <==> PassesComparators(b, chip)
  {
    SamePositive(a, b, PERIPHERAL_RESOURCE_SHARING_ENABLED);
    SameFires(Pair(COMP_ENABLED, LPCOMP_ENABLED), a, b);
  }

  /** Acceptance depends on nothing but the visible macros. */
  lemma AcceptedSeesVisible(a: Config, b: Config, chip: Chip)
    requires AgreeOn(Visible, a, b)
    ensures Accepted(a, chip) <==> Accepted(b, chip)
  {
    SameAvailability(a, b, chip);
    SameCounts(a, b, chip);
    SameSharing(a, b);
    SameNfc(a, b, chip);
    SameComparators(a, b, chip);
  }

  // ---------------------------------------------------------------------
  // A build as its overrides show it
  // ---------------------------------------------------------------------

  /** The overrides, and the rivals that the file defines under them. */
  function Completed(overrides: Config): Config {
    map k | k in overrides.Keys + RIVALS && Stands(overrides, k) :: Value(overrides, k)
  }

  lemma CompletedValues(overrides: Config)
    ensures forall k :: Value(Completed(overrides), k) == Value(overrides, k)
    ensures forall k :: k in RIVALS ==> (k in Completed(overrides) <==> Stands(overrides, k))
  {
  }

  lemma CompletedSafety(overrides: Config)
    ensures Natural(overrides) ==> Natural(Completed(overrides))
    ensures SharingOff(Completed(overrides)) <==> SharingOff(overrides)
    ensures Clocked(Completed(overrides)) <==> Clocked(overrides)
    ensures Unshared(Completed(overrides)) <==> Unshared(overrides)
    ensures Safe(Completed(overrides)) <==> Safe(overrides)
  {
    CompletedValues(overrides);
    SafetyOfValues(overrides, Completed(overrides));
    if Natural(overrides) {
      forall k | k in Completed(overrides)
        ensures Completed(overrides)[k] >= 0
      {
        assert Value(Completed(overrides), k) == Value(overrides, k);
      }
    }
  }

  /** A build turns on what its overrides turn on. */
  lemma BuildValue(f: Forest<Macro>, overrides: Config, k: Macro)
    requires SdkFile(f) && Visible(k) && !NfcSetting(k)
    ensures Value(Resolve(f, overrides), k) == Value(overrides, k)
  {
    WhatTheChecksSee(f, overrides);
    SamePositive(Resolve(f, overrides), Resolve(VISIBLE_ONCE, overrides), k);
    OnlyOverridesAreOn(overrides, k);
  }

  /** The visible part of a natural configuration, resolved, is natural. */
  lemma VisibleNatural(overrides: Config)
    requires Natural(overrides)
    ensures Natural(Resolve(VISIBLE_ONCE, overrides))
  {
    VisibleOnceNatural();
    ResolveNatural(VISIBLE_ONCE, overrides);
  }

  lemma DriversAreSwitches(k: Macro)
    requires k in DRIVERS_0 || k in DRIVERS_1
    ensures Visible(k) && !NfcSetting(k)
  {
  }

  lemma OthersAreSwitches(k: Macro)
    requires k in GROUP_2 || k in COMPARATORS || k in TIMER4_USERS
    ensures Visible(k) && !NfcSetting(k)
  {
  }

  lemma RivalsAreSwitches(k: Macro)
    requires k in RIVALS
    ensures Visible(k) && !NfcSetting(k)
  {
    if k in GROUP_0 || k in GROUP_1 {
      DriversAreSwitches(k);
    } else {
      OthersAreSwitches(k);
    }
  }

  lemma CompletedLikeBuild(overrides: Config)
    ensures GroupBelow(RIVALS, Resolve(VISIBLE_ONCE, overrides), Completed(overrides))
    ensures GroupBelow(RIVALS, Completed(overrides), Resolve(VISIBLE_ONCE, overrides))
  {
    CompletedValues(overrides);
    forall k | k in RIVALS
      ensures Value(Resolve(VISIBLE_ONCE, overrides), k) == Value(Completed(overrides), k)
      ensures k in Resolve(VISIBLE_ONCE, overrides) <==> k in Completed(overrides)
    {
      RivalsAreSwitches(k);
      OnlyOverridesAreOn(overrides, k);
      SeenFinds(overrides, k);
    }
  }

  lemma SupportOfValues(a: Config, b: Config, chip: Chip)
    requires forall k | !NfcSetting(k) :: Value(a, k) == Value(b, k)
    ensures Supported(a, chip) <==> Supported(b, chip)
  {
  }

  lemma TamenessOfRivals(a: Config, b: Config, chip: Chip)
    requires GroupBelow(RIVALS, a, b) && GroupBelow(RIVALS, b, a)
    requires SharingOff(a) <==> SharingOff(b)
    ensures Tame(a, chip) <==> Tame(b, chip)
  {
    if Tame(a, chip) {
      TameDescends(b, a, chip);
    }
    if Tame(b, chip) {
      TameDescends(a, b, chip);
    }
  }

  // ---------------------------------------------------------------------
  // Exactly which builds are accepted
  // ---------------------------------------------------------------------

  lemma SeenValues(overrides: Config)
    requires Natural(overrides)
    ensures var seen := Resolve(VISIBLE_ONCE, overrides);
            && Natural(seen) && CLOCK_ENABLED in seen && PERIPHERAL_RESOURCE_SHARING_ENABLED in seen
            && forall k | !NfcSetting(k) :: Value(seen, k) == Value(overrides, k)
  {
    VisibleNatural(overrides);
    SeenFinds(overrides, CLOCK_ENABLED);
    SeenFinds(overrides, PERIPHERAL_RESOURCE_SHARING_ENABLED);
    forall k | !NfcSetting(k)
      ensures Value(Resolve(VISIBLE_ONCE, overrides), k) == Value(overrides, k)
    {
      OnlyOverridesAreOn(overrides, k);
    }
  }

  lemma SeenAcceptedExactly(overrides: Config, chip: Chip)
    requires Natural(overrides)
    ensures Accepted(Resolve(VISIBLE_ONCE, overrides), chip) <==>
            Supported(overrides, chip) && Safe(overrides) && Tame(Completed(overrides), chip)
  {
    var seen := Resolve(VISIBLE_ONCE, overrides);
    SeenValues(overrides);
    AcceptedExactly(seen, chip);
    SupportOfValues(seen, overrides, chip);
    CompletedSafety(overrides);
    CompletedLikeBuild(overrides);
    SafetyOfValues(seen, overrides);
    TamenessOfRivals(seen, Completed(overrides), chip);
  }

  /** Whether a build is accepted can be told from its overrides alone, whatever
      natural numbers they are: what they turn on has to be supported and safe,
      and a switch above 1 must have no rival defined, by an override or by the
      file. */
  lemma BuildAcceptedExactly(f: Forest<Macro>, overrides: Config, chip: Chip)
    requires SdkFile(f) && Natural(overrides)
    ensures Accepted(Resolve(f, overrides), chip) <==>
            Supported(overrides, chip) && Safe(overrides) && Tame(Completed(overrides), chip)
  {
    WhatTheChecksSee(f, overrides);
    AcceptedSeesVisible(Resolve(f, overrides), Resolve(VISIBLE_ONCE, overrides), chip);
    SeenAcceptedExactly(overrides, chip);
  }

  /** For switches off or set to 1 that is support and safety. */
  lemma FlagBuildExactly(f: Forest<Macro>, overrides: Config, chip: Chip)
    requires SdkFile(f) && Natural(overrides) && forall k :: Value(overrides, k) <= 1
    ensures Accepted(Resolve(f, overrides), chip) <==> Supported(overrides, chip) && Safe(overrides)
  {
    BuildAcceptedExactly(f, overrides, chip);
    CompletedValues(overrides);
    FlagsTame(Completed(overrides), chip);
  }

  lemma BuildSafe(f: Forest<Macro>, overrides: Config)
    requires SdkFile(f) && Safe(overrides)
    ensures Safe(Resolve(f, overrides))
  {
    forall k | k in RIVALS
      ensures Value(Resolve(f, overrides), k) == Value(overrides, k)
    {
      RivalsAreSwitches(k);
      BuildValue(f, overrides, k);
    }
    BuildValue(f, overrides, CLOCK_ENABLED);
    BuildValue(f, overrides, PERIPHERAL_RESOURCE_SHARING_ENABLED);
    SafetyOfValues(Resolve(f, overrides), overrides);
  }

  /** End to end: whatever natural numbers the application defines, on any
      chip, a configuration that resolves and is accepted is safe. */
  lemma AcceptedBuildIsSafe(f: Forest<Macro>, overrides: Config, chip: Chip)
    requires SdkFile(f) && Natural(overrides)
    requires Accepted(Resolve(f, overrides), chip)
    ensures Safe(Resolve(f, overrides))
  {
    BuildAcceptedExactly(f, overrides, chip);
    BuildSafe(f, overrides);
  }

  /** Reading the flat file and running the checks: what the build does. */
  method CheckedBuild(f: Forest<Macro>, overrides: Config, chip: Chip) returns (ok: bool, env: Config)
    ensures env == Resolve(f, overrides)
    ensures ok <==> Accepted(env, chip)
    ensures ok && SdkFile(f) && Natural(overrides) ==> Safe(env)
  {
    env := Build(f, overrides);
    ok := Accepted(env, chip);
    if ok && SdkFile(f) {
      if Natural(overrides) {
        AcceptedBuildIsSafe(f, overrides, chip);
      }
    }
  }

  // ---------------------------------------------------------------------
  // Lowering the overrides
  // ---------------------------------------------------------------------

  lemma StandsBelow(low: Config, high: Config, k: Macro)
    requires Natural(low) && Below(low, high) && Stands(low, k)
    ensures Stands(high, k)
  {
    if k !in low {
      forall a | a in EntryOf(k).value.around
        ensures Value(high, a) != 0
      {
        assert Value(low, a) != 0;
      }
    }
  }

  lemma CompletedBelow(low: Config, high: Config)
    requires Natural(low) && Natural(high) && Below(low, high)
    ensures GroupBelow(RIVALS, Completed(low), Completed(high))
  {
    CompletedValues(low);
    CompletedValues(high);
    forall k | k in RIVALS
      ensures Value(low, k) <= Value(high, k)
      ensures k in Completed(low) ==> k in Completed(high)
    {
      if Stands(low, k) {
        StandsBelow(low, high, k);
      }
    }
  }

  lemma LoweringKeepsSupport(low: Config, high: Config, chip: Chip)
    requires Natural(low) && Natural(high) && Below(low, high) && Supported(high, chip)
    ensures Supported(low, chip)
  {
    forall k | Value(low, k) != 0
      ensures Supports(chip, k)
    {
      assert Value(high, k) != 0;
    }
  }

  /** Natural overrides below those of an accepted build are accepted too,
      exactly unless they leave NFC without the clock or give up sharing while
      something is still shared. */
  lemma LoweringExactly(f: Forest<Macro>, low: Config, high: Config, chip: Chip)
    requires SdkFile(f) && Natural(low) && Natural(high) && Below(low, high)
    requires Accepted(Resolve(f, high), chip)
    ensures Accepted(Resolve(f, low), chip) <==>
            && Clocked(low)
            && (SharingOff(low) && !SharingOff(high) ==>
                  Unshared(low) && UnsharedTame(Completed(low), chip))
  {
    BuildAcceptedExactly(f, low, chip);
    BuildAcceptedExactly(f, high, chip);
    LoweringKeepsSupport(low, high, chip);
    CompletedBelow(low, high);
    CompletedSafety(low);
    CompletedSafety(high);
    SafetyLowered(Completed(low), Completed(high), chip);
  }

  /** So lowering overrides never breaks a build, on any chip, as long as the
      clock and sharing stay as they are; and if no override is dropped, no
      macro the checks read is raised. */
  lemma LoweringKeepsAcceptance(f: Forest<Macro>, low: Config, high: Config, chip: Chip)
    requires SdkFile(f)
    requires Natural(low) && Natural(high) && Below(low, high)
    requires Value(low, CLOCK_ENABLED) == Value(high, CLOCK_ENABLED)
    requires SharingOff(low) <==> SharingOff(high)
    requires Accepted(Resolve(f, high), chip)
    ensures Accepted(Resolve(f, low), chip)
    ensures low.Keys == high.Keys ==>
              forall k | Visible(k) :: Value(Resolve(f, low), k) <= Value(Resolve(f, high), k)
  {
    BuildAcceptedExactly(f, high, chip);
    LoweringExactly(f, low, high, chip);
    if low.Keys == high.Keys {
      LoweringRaisesNothing(f, low, high);
    }
  }

  lemma LoweringRaisesNothing(f: Forest<Macro>, low: Config, high: Config)
    requires SdkFile(f) && Natural(low) && Natural(high) && low.Keys == high.Keys && Below(low, high)
    ensures forall k | Visible(k) :: Value(Resolve(f, low), k) <= Value(Resolve(f, high), k)
  {
    var low', high' := Resolve(VISIBLE_ONCE, low), Resolve(VISIBLE_ONCE, high);
    WhatTheChecksSee(f, low);
    WhatTheChecksSee(f, high);
    VisibleOnceNatural();
    VisibleOnceDistinct();
    VisibleNatural(high);
    LowerOverrides(VISIBLE_ONCE, low, high);
    forall k | Visible(k)
      ensures Value(Resolve(f, low), k) <= Value(Resolve(f, high), k)
    {
      SamePositive(Resolve(f, low), low', k);
      SamePositive(Resolve(f, high), high', k);
    }
  }
}
