/** Builds whose application sets a switch or two and nothing else: on which
    chips each is accepted. */
module SdkSmallBuilds {
  import opened OptionForest
  import opened PairTests
  import opened SdkAcceptance
  import opened SdkBuild
  import opened SdkMacros
  import opened SdkOptions
  import opened SdkValidation

  // ---------------------------------------------------------------------
  // One switch
  // ---------------------------------------------------------------------

  lemma SwitchAllowed(k: Macro, chip: Chip)
    requires k != NFC_HAL_ENABLED && Supports(chip, k)
    ensures Supported(map[k := 1], chip) && Safe(map[k := 1])
  {
  }

  const NFC_BUILD: Config := map[NFC_HAL_ENABLED := 1, CLOCK_ENABLED := 1]

  lemma NfcBuildFlags()
    ensures Natural(NFC_BUILD) && forall k :: Value(NFC_BUILD, k) <= 1
    ensures Value(NFC_BUILD, NFC_HAL_ENABLED) == 1
  {
  }

  lemma NfcBuildSafe()
    ensures Safe(NFC_BUILD)
  {
  }

  /** Alone in an application's overrides, a switch is accepted exactly on the
      chips that support it. */
  lemma SwitchAcceptedExactly(f: Forest<Macro>, k: Macro, chip: Chip)
    requires SdkFile(f) && Visible(k) && k != NFC_HAL_ENABLED
    ensures Accepted(Resolve(f, map[k := 1]), chip) <==> Supports(chip, k)
  {
    var overrides: Config := map[k := 1];
    FlagBuildExactly(f, overrides, chip);
    if Supports(chip, k) {
      SwitchAllowed(k, chip);
    } else {
      assert Value(overrides, k) != 0;
    }
  }

  lemma NfcAllowed(chip: Chip)
    requires chip.nfct
    ensures Supported(NFC_BUILD, chip) && Safe(NFC_BUILD)
  {
    NfcBuildSafe();
  }

  lemma NfcAcceptedExactly(f: Forest<Macro>, chip: Chip)
    requires SdkFile(f)
    ensures Accepted(Resolve(f, NFC_BUILD), chip) <==> chip.nfct
  {
    NfcBuildFlags();
    FlagBuildExactly(f, NFC_BUILD, chip);
    if chip.nfct {
      NfcAllowed(chip);
    } else {
      assert Value(NFC_BUILD, NFC_HAL_ENABLED) != 0;
    }
  }

  lemma SupportListed(k: Macro, present: bool, chip: Chip)
    requires (k, present) in {
               (SAADC_ENABLED, chip.saadc), (ADC_ENABLED, chip.adc), (I2S_ENABLED, chip.i2s),
               (COMP_ENABLED, chip.comp), (LPCOMP_ENABLED, chip.lpcomp), (SPIS0_ENABLED, chip.spis),
               (EGU_ENABLED, chip.egu), (TWIS0_ENABLED, chip.twis), (TWIS1_ENABLED, chip.twis),
               (RTC2_ENABLED, chip.rtcCount >= 2), (SPIS2_ENABLED, chip.spisCount >= 2),
               (TIMER3_ENABLED, chip.timerCount >= 5), (TIMER4_ENABLED, chip.timerCount >= 5)}
    ensures k != NFC_HAL_ENABLED && Visible(k) && (Supports(chip, k) <==> present)
  {
  }

  /** The unconditional checks, macro by macro: a build that only turns the
      macro on is accepted exactly on the chips that have what the check asks. */
  lemma PresenceBuilds(f: Forest<Macro>, k: Macro, present: bool, chip: Chip)
    requires SdkFile(f)
    requires (k, present) in {
               (SAADC_ENABLED, chip.saadc), (ADC_ENABLED, chip.adc), (I2S_ENABLED, chip.i2s),
               (COMP_ENABLED, chip.comp), (LPCOMP_ENABLED, chip.lpcomp), (SPIS0_ENABLED, chip.spis),
               (EGU_ENABLED, chip.egu), (TWIS0_ENABLED, chip.twis), (TWIS1_ENABLED, chip.twis),
               (RTC2_ENABLED, chip.rtcCount >= 2), (SPIS2_ENABLED, chip.spisCount >= 2),
               (TIMER3_ENABLED, chip.timerCount >= 5), (TIMER4_ENABLED, chip.timerCount >= 5)}
    ensures Accepted(Resolve(f, map[k := 1]), chip) <==> present
  {
    SupportListed(k, present, chip);
    SwitchAcceptedExactly(f, k, chip);
  }

  lemma UncheckedSupported(k: Macro, chip: Chip)
    requires k !in {SAADC_ENABLED, ADC_ENABLED, I2S_ENABLED, COMP_ENABLED, LPCOMP_ENABLED, SPIS0_ENABLED,
                    EGU_ENABLED, NFC_HAL_ENABLED, RTC2_ENABLED, TWIS0_ENABLED, TWIS1_ENABLED, SPIS2_ENABLED,
                    TIMER3_ENABLED, TIMER4_ENABLED}
    ensures k != NFC_HAL_ENABLED && Supports(chip, k)
  {
  }

  /** No other switch is refused for want of a peripheral. */
  lemma UncheckedBuilds(f: Forest<Macro>, k: Macro, chip: Chip)
    requires SdkFile(f) && Visible(k)
    requires k !in {SAADC_ENABLED, ADC_ENABLED, I2S_ENABLED, COMP_ENABLED, LPCOMP_ENABLED, SPIS0_ENABLED,
                    EGU_ENABLED, NFC_HAL_ENABLED, RTC2_ENABLED, TWIS0_ENABLED, TWIS1_ENABLED, SPIS2_ENABLED,
                    TIMER3_ENABLED, TIMER4_ENABLED}
    ensures Accepted(Resolve(f, map[k := 1]), chip)
  {
    UncheckedSupported(k, chip);
    SwitchAcceptedExactly(f, k, chip);
  }

  // ---------------------------------------------------------------------
  // The rivals by name
  // ---------------------------------------------------------------------

  predicate Instance0(k: Macro) {
    k.TWIM0_ENABLED? || k.TWIS0_ENABLED? || k.SPIM0_ENABLED? || k.SPIS0_ENABLED? || k.SPI0_ENABLED? || k.TWI0_ENABLED?
  }

  predicate Instance1(k: Macro) {
    k.TWIM1_ENABLED? || k.TWIS1_ENABLED? || k.SPIM1_ENABLED? || k.SPIS1_ENABLED? || k.SPI1_ENABLED? || k.TWI1_ENABLED?
  }

  predicate Instance2(k: Macro) {
    k.SPIM2_ENABLED? || k.SPI2_ENABLED? || k.SPIS2_ENABLED?
  }

  /** Always defined by the file. */
  predicate Permanent(k: Macro) {
    k.COMP_ENABLED? || k.LPCOMP_ENABLED? || k.NFC_HAL_ENABLED?
  }

  /** A driver or NFC: what the overlap checks compare with others. */
  predicate Rival(k: Macro) {
    Instance0(k) || Instance1(k) || Instance2(k) || Permanent(k) || k.TIMER4_ENABLED?
  }

  lemma Instance0ByName(k: Macro)
    ensures k in GROUP_0 <==> Instance0(k)
  {
    assert k in GROUP_0 <==> k in DRIVERS_0;
  }

  lemma Instance1ByName(k: Macro)
    ensures k in GROUP_1 <==> Instance1(k)
  {
    assert k in GROUP_1 <==> k in DRIVERS_1;
  }

  lemma InstancesByName()
    ensures forall k :: k in GROUP_0 <==> Instance0(k)
    ensures forall k :: k in GROUP_1 <==> Instance1(k)
  {
    forall k
      ensures k in GROUP_0 <==> Instance0(k)
      ensures k in GROUP_1 <==> Instance1(k)
    {
      Instance0ByName(k);
      Instance1ByName(k);
    }
  }

  lemma RivalsByName(k: Macro)
    ensures k in RIVALS <==> Rival(k)
  {
    Instance0ByName(k);
    Instance1ByName(k);
    assert k in RIVALS <==>
           k in GROUP_0 || k in GROUP_1 || k in GROUP_2 || k in COMPARATORS || k in TIMER4_USERS;
  }

  lemma SharingIsNoRival()
    ensures PERIPHERAL_RESOURCE_SHARING_ENABLED !in RIVALS
  {
    RivalsByName(PERIPHERAL_RESOURCE_SHARING_ENABLED);
  }

  // ---------------------------------------------------------------------
  // Pairs of switches
  // ---------------------------------------------------------------------

  /** Both switches are of the group. */
  predicate Both(a: Macro, b: Macro, group: set<Macro>) {
    a in group && b in group
  }

  /** Two switches that the checks do not let stand together without sharing. */
  predicate Overlapping(a: Macro, b: Macro) {
    || (Instance0(a) && Instance0(b))
    || (Instance1(a) && Instance1(b))
    || ((a.SPI2_ENABLED? || a.SPIS2_ENABLED?) && (b.SPI2_ENABLED? || b.SPIS2_ENABLED?))
    || ((a.COMP_ENABLED? || a.LPCOMP_ENABLED?) && (b.COMP_ENABLED? || b.LPCOMP_ENABLED?))
  }

  lemma PairInGroup(group: set<Macro>, a: Macro, b: Macro)
    requires a != b
    ensures AtMostOne(group, map[a := 1, b := 1]) <==> !Both(a, b, group)
  {
    var env: Config := map[a := 1, b := 1];
    assert Value(env, a) == 1 && Value(env, b) == 1;
  }

  lemma PairInInstances(a: Macro, b: Macro)
    requires a != b
    ensures AtMostOne(GROUP_0, map[a := 1, b := 1]) <==> !(Instance0(a) && Instance0(b))
    ensures AtMostOne(GROUP_1, map[a := 1, b := 1]) <==> !(Instance1(a) && Instance1(b))
  {
    PairInGroup(GROUP_0, a, b);
    PairInGroup(GROUP_1, a, b);
    Instance0ByName(a);
    Instance0ByName(b);
    Instance1ByName(a);
    Instance1ByName(b);
  }

  lemma PairInSmallGroups(a: Macro, b: Macro)
    requires a != b
    ensures AtMostOne(SPI2_DRIVERS, map[a := 1, b := 1]) <==>
            !((a.SPI2_ENABLED? || a.SPIS2_ENABLED?) && (b.SPI2_ENABLED? || b.SPIS2_ENABLED?))
    ensures AtMostOne(COMPARATORS, map[a := 1, b := 1]) <==>
            !((a.COMP_ENABLED? || a.LPCOMP_ENABLED?) && (b.COMP_ENABLED? || b.LPCOMP_ENABLED?))
    ensures AtMostOne(TIMER4_USERS, map[a := 1, b := 1]) <==>
            !((a.NFC_HAL_ENABLED? || a.TIMER4_ENABLED?) && (b.NFC_HAL_ENABLED? || b.TIMER4_ENABLED?))
  {
    PairInGroup(SPI2_DRIVERS, a, b);
    PairInGroup(COMPARATORS, a, b);
    PairInGroup(TIMER4_USERS, a, b);
  }

  lemma PairUnshared(a: Macro, b: Macro)
    requires a != b
    ensures Unshared(map[a := 1, b := 1]) <==> !Overlapping(a, b)
  {
    PairInInstances(a, b);
    PairInSmallGroups(a, b);
  }

  lemma PairOn(a: Macro, b: Macro, k: Macro)
    ensures Value(map[a := 1, b := 1], k) != 0 <==> k in {a, b}
  {
  }

  lemma SharingNeverOverlaps(a: Macro, b: Macro)
    requires PERIPHERAL_RESOURCE_SHARING_ENABLED in {a, b}
    ensures !Overlapping(a, b)
  {
  }

  lemma PairSafe(a: Macro, b: Macro)
    requires a != b
    ensures Safe(map[a := 1, b := 1]) <==>
            !Overlapping(a, b) && (NFC_HAL_ENABLED in {a, b} ==> CLOCK_ENABLED in {a, b})
  {
    PairUnshared(a, b);
    PairInSmallGroups(a, b);
    PairOn(a, b, NFC_HAL_ENABLED);
    PairOn(a, b, CLOCK_ENABLED);
    PairOn(a, b, PERIPHERAL_RESOURCE_SHARING_ENABLED);
    if PERIPHERAL_RESOURCE_SHARING_ENABLED in {a, b} {
      SharingNeverOverlaps(a, b);
    }
  }

  /** Exactly which two switches an application can turn on together, on which
      chips. */
  lemma TwoSwitchesExactly(f: Forest<Macro>, a: Macro, b: Macro, chip: Chip)
    requires SdkFile(f) && Visible(a) && Visible(b) && a != b
    ensures Accepted(Resolve(f, map[a := 1, b := 1]), chip) <==>
            && Supports(chip, a) && Supports(chip, b) && !Overlapping(a, b)
            && (NFC_HAL_ENABLED in {a, b} ==> CLOCK_ENABLED in {a, b})
  {
    var overrides: Config := map[a := 1, b := 1];
    FlagBuildExactly(f, overrides, chip);
    PairSafe(a, b);
    PairSupported(a, b, chip);
  }

  lemma PairSupported(a: Macro, b: Macro, chip: Chip)
    requires a != b
    ensures Supported(map[a := 1, b := 1], chip) <==> Supports(chip, a) && Supports(chip, b)
  {
    var env: Config := map[a := 1, b := 1];
    assert Value(env, a) == 1 && Value(env, b) == 1;
  }

  // ---------------------------------------------------------------------
  // NFC and another switch
  // ---------------------------------------------------------------------

  function NfcWith(k: Macro): Config {
    map[NFC_HAL_ENABLED := 1, CLOCK_ENABLED := 1, k := 1]
  }

  lemma NfcWithValues(k: Macro, a: Macro)
    ensures Value(NfcWith(k), a) == if a in {NFC_HAL_ENABLED, CLOCK_ENABLED, k} then 1 else 0
  {
  }

  lemma NfcApart(group: set<Macro>, k: Macro)
    requires NFC_HAL_ENABLED !in group && CLOCK_ENABLED !in group
    ensures AtMostOne(group, NfcWith(k))
  {
    forall a | a in group && a != k
      ensures Value(NfcWith(k), a) == 0
    {
      NfcWithValues(k, a);
    }
    AtMostOneAround(group, NfcWith(k), k);
  }

  lemma NfcUnshared(k: Macro)
    ensures Unshared(NfcWith(k))
  {
    Instance0ByName(NFC_HAL_ENABLED);
    Instance0ByName(CLOCK_ENABLED);
    Instance1ByName(NFC_HAL_ENABLED);
    Instance1ByName(CLOCK_ENABLED);
    NfcApart(GROUP_0, k);
    NfcApart(GROUP_1, k);
    NfcApart(SPI2_DRIVERS, k);
    NfcApart(COMPARATORS, k);
  }

  lemma NfcWithSafe(k: Macro)
    ensures Safe(NfcWith(k)) <==> k != TIMER4_ENABLED
  {
    NfcUnshared(k);
    NfcWithValues(k, NFC_HAL_ENABLED);
    NfcWithValues(k, CLOCK_ENABLED);
    NfcWithValues(k, TIMER4_ENABLED);
    assert NFC_HAL_ENABLED in TIMER4_USERS && TIMER4_ENABLED in TIMER4_USERS;
  }

  lemma NfcWithSupported(k: Macro, chip: Chip)
    ensures Supported(NfcWith(k), chip) <==> chip.nfct && Supports(chip, k)
  {
    NfcWithValues(k, NFC_HAL_ENABLED);
    NfcWithValues(k, k);
    assert Supports(chip, NFC_HAL_ENABLED) <==> chip.nfct;
    if chip.nfct && Supports(chip, k) {
      forall a | Value(NfcWith(k), a) != 0
        ensures Supports(chip, a)
      {
        NfcWithValues(k, a);
      }
    }
  }

  /** Beside NFC and its clock any other switch is accepted where both are
      supported, TIMER4 alone excepted. */
  lemma NfcBesideExactly(f: Forest<Macro>, k: Macro, chip: Chip)
    requires SdkFile(f)
    ensures Accepted(Resolve(f, map[NFC_HAL_ENABLED := 1, CLOCK_ENABLED := 1, k := 1]), chip) <==>
            chip.nfct && Supports(chip, k) && k != TIMER4_ENABLED
  {
    forall a
      ensures Value(NfcWith(k), a) <= 1
    {
      NfcWithValues(k, a);
    }
    FlagBuildExactly(f, NfcWith(k), chip);
    NfcWithSafe(k);
    NfcWithSupported(k, chip);
  }

  // ---------------------------------------------------------------------
  // Values above 1
  // ---------------------------------------------------------------------

  lemma LargeComparatorSafe(k: Macro, v: int, chip: Chip)
    requires k == COMP_ENABLED || k == LPCOMP_ENABLED
    requires v > 1 && Supports(chip, k)
    ensures Supported(map[k := v], chip) && Safe(map[k := v])
  {
  }

  lemma ComparatorsElsewhere(k: Macro)
    requires k == COMP_ENABLED || k == LPCOMP_ENABLED
    ensures k !in GROUP_0 && k !in GROUP_1 && k !in TIMER4_USERS
  {
    assert k !in DRIVERS_0 && k !in DRIVERS_1;
  }

  /** `k` is one comparator and `other` the other. */
  predicate TwoComparators(k: Macro, other: Macro) {
    (k == COMP_ENABLED && other == LPCOMP_ENABLED) || (k == LPCOMP_ENABLED && other == COMP_ENABLED)
  }

  lemma LargeComparatorNotLone(k: Macro, other: Macro, built: Config)
    requires TwoComparators(k, other) && Value(built, k) > 1 && other in built
    ensures !Lone(COMPARATORS, built)
  {
    assert k in COMPARATORS && other in COMPARATORS;
  }

  lemma LargeComparatorElsewhereTame(k: Macro, built: Config)
    requires k == COMP_ENABLED || k == LPCOMP_ENABLED
    requires forall a | a != k :: Value(built, a) == 0
    ensures Lone(GROUP_0, built) && Lone(GROUP_1, built) && Lone(TIMER4_USERS, built) && Instance2Tame(built)
  {
    ComparatorsElsewhere(k);
    LoneWhenSmall(GROUP_0, built);
    LoneWhenSmall(GROUP_1, built);
    LoneWhenSmall(TIMER4_USERS, built);
  }

  lemma LargeComparatorTame(k: Macro, other: Macro, built: Config, chip: Chip)
    requires TwoComparators(k, other) && Value(built, k) > 1 && other in built
    requires forall a | a != k :: Value(built, a) == 0
    ensures Tame(built, chip) <==> !chip.lpcomp
  {
    LargeComparatorNotLone(k, other, built);
    LargeComparatorElsewhereTame(k, built);
    assert SharingOff(built);
  }

  /** A comparator set above 1 is refused although it is supported and nothing
      overlaps: the file always defines the other comparator. */
  lemma LargeComparatorRefusedExactly(f: Forest<Macro>, k: Macro, v: int, chip: Chip)
    requires SdkFile(f) && (k == COMP_ENABLED || k == LPCOMP_ENABLED)
    requires v > 1 && Supports(chip, k)
    ensures var overrides: Config := map[k := v];
            && Supported(overrides, chip) && Safe(overrides)
            && (Accepted(Resolve(f, overrides), chip) <==> !chip.lpcomp)
  {
    var overrides: Config := map[k := v];
    var other := if k == COMP_ENABLED then LPCOMP_ENABLED else COMP_ENABLED;
    BuildAcceptedExactly(f, overrides, chip);
    CompletedValues(overrides);
    OutermostStands(overrides, other);
    GroupsWithinRivals();
    assert other in COMPARATORS;
    assert Value(overrides, k) == v;
    LargeComparatorSafe(k, v, chip);
    LargeComparatorTame(k, other, Completed(overrides), chip);
  }

  lemma OutermostStands(overrides: Config, k: Macro)
    requires k == COMP_ENABLED || k == LPCOMP_ENABLED
    ensures Stands(overrides, k)
  {
  }

  // ---------------------------------------------------------------------
  // One switch above 1, another merely defined
  // ---------------------------------------------------------------------

  function Large(a: Macro, v: int, b: Macro): Config {
    map[a := v, b := 0]
  }

  /** A rival of `a` is defined when only `a` and `b` are overridden: `b`, or one
      that the file always defines. */
  predicate RivalDefined(a: Macro, b: Macro, chip: Chip) {
    || (Instance0(a) && Instance0(b))
    || (Instance1(a) && Instance1(b))
    || ((a.SPI2_ENABLED? || a.SPIS2_ENABLED?) && Instance2(b))
    || ((a.COMP_ENABLED? || a.LPCOMP_ENABLED?) && chip.lpcomp)
    || (a.TIMER4_ENABLED? && chip.nfct)
  }

  lemma LargeValues(a: Macro, v: int, b: Macro, k: Macro)
    requires a != b
    ensures Value(Large(a, v, b), k) == if k == a then v else 0
  {
  }

  lemma PermanentStands(overrides: Config, k: Macro)
    requires Permanent(k)
    ensures Stands(overrides, k)
  {
  }

  lemma DriverEntry(k: Macro)
    requires Rival(k) && !Permanent(k)
    ensures EntryOf(k).None? ||
            (|EntryOf(k).value.around| == 1 && UnderSwitch(k, EntryOf(k).value.around[0]))
  {
  }

  lemma SwitchIsNoRival(k: Macro, switch: Macro)
    requires UnderSwitch(k, switch)
    ensures !Rival(switch)
  {
  }

  lemma DriverStands(overrides: Config, k: Macro)
    requires Rival(k) && !Permanent(k) && forall s :: !Rival(s) ==> Value(overrides, s) == 0
    ensures Stands(overrides, k) <==> k in overrides
  {
    DriverEntry(k);
    if EntryOf(k).Some? {
      var switch := EntryOf(k).value.around[0];
      SwitchIsNoRival(k, switch);
      assert EntryOf(k).value.around == [switch];
      OneAround(overrides, switch);
    }
  }

  /** Only `a` is above 0, and it is above 1. */
  ghost predicate OnlyLarge(env: Config, a: Macro) {
    Value(env, a) > 1 && forall k | k != a :: Value(env, k) == 0
  }

  /** Of the rivals, `env` defines `a`, `b` and the permanent ones. */
  ghost predicate FewDefined(env: Config, a: Macro, b: Macro) {
    forall k | Rival(k) :: k in env <==> k == a || k == b || Permanent(k)
  }

  lemma LargeOnly(a: Macro, v: int, b: Macro)
    requires a != b && v > 1
    ensures OnlyLarge(Large(a, v, b), a)
  {
  }

  lemma CompletedOnly(overrides: Config, a: Macro)
    requires OnlyLarge(overrides, a)
    ensures OnlyLarge(Completed(overrides), a)
  {
    CompletedValues(overrides);
  }

  /** With a driver above 1, the file defines no other driver of its own accord
      but the permanent ones. */
  lemma LargeFew(a: Macro, v: int, b: Macro)
    requires a != b && v > 1 && Rival(a)
    ensures FewDefined(Completed(Large(a, v, b)), a, b)
  {
    var overrides := Large(a, v, b);
    CompletedValues(overrides);
    LargeOnly(a, v, b);
    forall k | Rival(k)
      ensures k in Completed(overrides) <==> k == a || k == b || Permanent(k)
    {
      RivalsByName(k);
      if Permanent(k) {
        PermanentStands(overrides, k);
      } else {
        DriverStands(overrides, k);
      }
    }
  }

  /** In an instance the driver above 1 is lone unless `b` is of it too. */
  lemma LoneInInstance0(group: set<Macro>, env: Config, a: Macro, b: Macro)
    requires OnlyLarge(env, a) && FewDefined(env, a, b) && a != b
    requires forall k :: k in group <==> Instance0(k)
    ensures Lone(group, env) <==> !(Instance0(a) && Instance0(b))
  {
    assert Rival(b) ==> b in env;
  }

  lemma LargeInstance0(env: Config, a: Macro, b: Macro)
    requires OnlyLarge(env, a) && FewDefined(env, a, b) && a != b
    ensures Lone(GROUP_0, env) <==> !(Instance0(a) && Instance0(b))
  {
    InstancesByName();
    LoneInInstance0(GROUP_0, env, a, b);
  }

  lemma LoneInInstance1(group: set<Macro>, env: Config, a: Macro, b: Macro)
    requires OnlyLarge(env, a) && FewDefined(env, a, b) && a != b
    requires forall k :: k in group <==> Instance1(k)
    ensures Lone(group, env) <==> !(Instance1(a) && Instance1(b))
  {
    assert Rival(b) ==> b in env;
  }

  lemma LargeInstance1(env: Config, a: Macro, b: Macro)
    requires OnlyLarge(env, a) && FewDefined(env, a, b) && a != b
    ensures Lone(GROUP_1, env) <==> !(Instance1(a) && Instance1(b))
  {
    InstancesByName();
    LoneInInstance1(GROUP_1, env, a, b);
  }

  lemma LargeInstance2(env: Config, a: Macro, b: Macro)
    requires OnlyLarge(env, a) && FewDefined(env, a, b) && a != b
    ensures Instance2Tame(env) <==> !((a.SPI2_ENABLED? || a.SPIS2_ENABLED?) && Instance2(b))
  {
    assert Rival(SPIM2_ENABLED) && Rival(SPI2_ENABLED) && Rival(SPIS2_ENABLED);
  }

  lemma LargeComparators(env: Config, a: Macro, b: Macro)
    requires OnlyLarge(env, a) && FewDefined(env, a, b)
    ensures Lone(COMPARATORS, env) <==> !(a.COMP_ENABLED? || a.LPCOMP_ENABLED?)
  {
    assert Rival(COMP_ENABLED) && Rival(LPCOMP_ENABLED);
    assert COMP_ENABLED in COMPARATORS && LPCOMP_ENABLED in COMPARATORS;
  }

  lemma LargeTimer4(env: Config, a: Macro, b: Macro)
    requires OnlyLarge(env, a) && FewDefined(env, a, b) && !a.NFC_HAL_ENABLED?
    ensures Lone(TIMER4_USERS, env) <==> !a.TIMER4_ENABLED?
  {
    assert Rival(NFC_HAL_ENABLED);
    assert NFC_HAL_ENABLED in TIMER4_USERS && TIMER4_ENABLED in TIMER4_USERS;
  }

  lemma LargeSafe(env: Config, a: Macro)
    requires OnlyLarge(env, a)
    ensures Safe(env) <==> a != NFC_HAL_ENABLED
  {
    AtMostOneAround(GROUP_0, env, a);
    AtMostOneAround(GROUP_1, env, a);
    AtMostOneAround(SPI2_DRIVERS, env, a);
    AtMostOneAround(COMPARATORS, env, a);
    AtMostOneAround(TIMER4_USERS, env, a);
    assert Value(env, NFC_HAL_ENABLED) != 0 <==> a == NFC_HAL_ENABLED;
  }

  lemma LargeSupported(env: Config, a: Macro, chip: Chip)
    requires OnlyLarge(env, a)
    ensures Supported(env, chip) <==> Supports(chip, a)
  {
  }

  lemma LargeTameRival(env: Config, a: Macro, b: Macro, chip: Chip)
    requires OnlyLarge(env, a) && FewDefined(env, a, b) && a != b
    requires Rival(a) && !a.NFC_HAL_ENABLED?
    ensures Tame(env, chip) <==> !RivalDefined(a, b, chip)
  {
    assert SharingOff(env);
    LargeInstance0(env, a, b);
    LargeInstance1(env, a, b);
    LargeInstance2(env, a, b);
    LargeComparators(env, a, b);
    LargeTimer4(env, a, b);
  }

  lemma LargeTameOther(env: Config, a: Macro, chip: Chip)
    requires OnlyLarge(env, a) && !Rival(a)
    ensures Tame(env, chip)
  {
    RivalsByName(a);
    GroupsWithinRivals();
    LoneWhenSmall(GROUP_0, env);
    LoneWhenSmall(GROUP_1, env);
    LoneWhenSmall(COMPARATORS, env);
    LoneWhenSmall(TIMER4_USERS, env);
  }

  lemma LargeTame(a: Macro, v: int, b: Macro, chip: Chip)
    requires a != b && v > 1 && !a.NFC_HAL_ENABLED?
    ensures Tame(Completed(Large(a, v, b)), chip) <==> !RivalDefined(a, b, chip)
  {
    LargeOnly(a, v, b);
    CompletedOnly(Large(a, v, b), a);
    if Rival(a) {
      LargeFew(a, v, b);
      LargeTameRival(Completed(Large(a, v, b)), a, b, chip);
    } else {
      LargeTameOther(Completed(Large(a, v, b)), a, chip);
    }
  }

  lemma LargeAllowedExactly(a: Macro, v: int, b: Macro, chip: Chip)
    requires a != b && v > 1
    ensures Supported(Large(a, v, b), chip) && Safe(Large(a, v, b)) && Tame(Completed(Large(a, v, b)), chip)
            <==> Supports(chip, a) && a != NFC_HAL_ENABLED && !RivalDefined(a, b, chip)
  {
    LargeOnly(a, v, b);
    LargeSupported(Large(a, v, b), a, chip);
    LargeSafe(Large(a, v, b), a);
    if a != NFC_HAL_ENABLED {
      LargeTame(a, v, b, chip);
    }
  }

  /** Exactly when a switch may be set above 1 beside another that is set to 0. */
  lemma LargeSwitchExactly(f: Forest<Macro>, a: Macro, v: int, b: Macro, chip: Chip)
    requires SdkFile(f) && a != b && v > 1
    ensures Accepted(Resolve(f, map[a := v, b := 0]), chip) <==>
            Supports(chip, a) && a != NFC_HAL_ENABLED && !RivalDefined(a, b, chip)
  {
    BuildAcceptedExactly(f, Large(a, v, b), chip);
    LargeAllowedExactly(a, v, b, chip);
  }
}
