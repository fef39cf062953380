/** Exactly which macro environments the checks accept. */
module SdkAcceptance {
  import opened OptionForest
  import opened PairTests
  import opened SdkValidation

  const SPI2_DRIVERS: set<Macro> := {SPI2_ENABLED, SPIS2_ENABLED}
  const COMPARATORS: set<Macro> := {COMP_ENABLED, LPCOMP_ENABLED}
  const TIMER4_USERS: set<Macro> := {NFC_HAL_ENABLED, TIMER4_ENABLED}

  // ---------------------------------------------------------------------
  // What the checks are for
  // ---------------------------------------------------------------------

  /** NFC runs on the clock. */
  predicate Clocked(env: Config) {
    Value(env, NFC_HAL_ENABLED) != 0 ==> Value(env, CLOCK_ENABLED) != 0
  }

  /** At most one driver of instance 0, at most one of instance 1, not SPI2
      beside SPIS2, and at most one comparator. */
  predicate Unshared(env: Config) {
    && AtMostOne(GROUP_0, env)
    && AtMostOne(GROUP_1, env)
    && AtMostOne(SPI2_DRIVERS, env)
    && AtMostOne(COMPARATORS, env)
  }

  predicate SharingOff(env: Config) {
    Value(env, PERIPHERAL_RESOURCE_SHARING_ENABLED) == 0
  }

  /** NFC only with the clock and without TIMER4, and nothing shared unless
      sharing was asked for. */
  predicate Safe(env: Config) {
    Clocked(env) && AtMostOne(TIMER4_USERS, env) && (SharingOff(env) ==> Unshared(env))
  }

  // ---------------------------------------------------------------------
  // What they refuse besides: values above 1
  // ---------------------------------------------------------------------

  /** When two macros of instance 2 are defined, SPI2 and SPIS2 are flags. */
  predicate Instance2Tame(env: Config) {
    TwoDefined(env) ==> Value(env, SPI2_ENABLED) <= 1 && Value(env, SPIS2_ENABLED) <= 1
  }

  predicate UnsharedTame(env: Config, chip: Chip) {
    && Lone(GROUP_0, env)
    && Lone(GROUP_1, env)
    && Instance2Tame(env)
    && (chip.lpcomp ==> Lone(COMPARATORS, env))
  }

  /** A switch set above 1 has no rival as much as defined beside it. */
  predicate Tame(env: Config, chip: Chip) {
    && (chip.nfct ==> Lone(TIMER4_USERS, env))
    && (SharingOff(env) ==> UnsharedTame(env, chip))
  }

  lemma LoneWhenSmall(group: set<Macro>, env: Config)
    requires forall k :: k in group ==> Value(env, k) <= 1
    ensures Lone(group, env)
  {
  }

  lemma AtMostOneAround(group: set<Macro>, env: Config, k: Macro)
    requires forall other :: other in group && other != k ==> Value(env, other) == 0
    ensures AtMostOne(group, env)
  {
  }

  /** Flags are tame. */
  lemma FlagsTame(env: Config, chip: Chip)
    requires forall k :: Value(env, k) <= 1
    ensures Tame(env, chip)
  {
    LoneWhenSmall(GROUP_0, env);
    LoneWhenSmall(GROUP_1, env);
    LoneWhenSmall(COMPARATORS, env);
    LoneWhenSmall(TIMER4_USERS, env);
  }

  // ---------------------------------------------------------------------
  // Check by check
  // ---------------------------------------------------------------------

  lemma DriversNotRepeated()
    ensures NoRepeats(DRIVERS_0) && NoRepeats(DRIVERS_1)
  {
  }

  lemma InstancesExactly(env: Config)
    requires Natural(env)
    ensures Passes(TESTS_0, env) <==> AtMostOne(GROUP_0, env) && Lone(GROUP_0, env)
    ensures Passes(TESTS_1, env) <==> AtMostOne(GROUP_1, env) && Lone(GROUP_1, env)
  {
    DriversNotRepeated();
    Tests0ListEveryPair();
    Tests1ListEveryPair();
    AllPairsExactly(DRIVERS_0, env);
    AllPairsExactly(DRIVERS_1, env);
  }

  lemma Instance2TestsExactly(env: Config)
    requires Natural(env)
    ensures Passes(TESTS_2, env) <==> AtMostOne(SPI2_DRIVERS, env) && Instance2Tame(env)
  {
    Tests2Exactly(env);
    assert SPI2_ENABLED in SPI2_DRIVERS && SPIS2_ENABLED in SPI2_DRIVERS;
  }

  lemma NfcExactly(env: Config, chip: Chip)
    requires Natural(env) && CLOCK_ENABLED in env && Supported(env, chip)
    ensures PassesNfc(env, chip) <==>
            Clocked(env) && AtMostOne(TIMER4_USERS, env) && (chip.nfct ==> Lone(TIMER4_USERS, env))
  {
    PairExactly(NFC_HAL_ENABLED, TIMER4_ENABLED, env);
    if !chip.nfct {
      assert !Supports(chip, NFC_HAL_ENABLED);
    }
  }

  lemma ComparatorsExactly(env: Config, chip: Chip)
    requires Natural(env) && Supported(env, chip)
    ensures PassesComparators(env, chip) <==>
            (SharingOff(env) ==>
               AtMostOne(COMPARATORS, env) && (chip.lpcomp ==> Lone(COMPARATORS, env)))
  {
    PairExactly(COMP_ENABLED, LPCOMP_ENABLED, env);
    if !chip.lpcomp {
      assert !Supports(chip, LPCOMP_ENABLED);
    }
  }

  /** For all natural values: the checks accept exactly what the chip supports
      and is safe, but for switches above 1 beside a defined rival. */
  lemma AcceptedExactly(env: Config, chip: Chip)
    requires Natural(env)
    requires CLOCK_ENABLED in env && PERIPHERAL_RESOURCE_SHARING_ENABLED in env
    ensures Accepted(env, chip) <==> Supported(env, chip) && Safe(env) && Tame(env, chip)
  {
    PresenceExactly(env, chip);
    if Supported(env, chip) {
      InstancesExactly(env);
      Instance2TestsExactly(env);
      NfcExactly(env, chip);
      ComparatorsExactly(env, chip);
    }
  }

  // ---------------------------------------------------------------------
  // Environments alike in what counts
  // ---------------------------------------------------------------------

  /** `high` defines what `low` does and sets no macro of the group lower. */
  predicate GroupBelow(group: set<Macro>, low: Config, high: Config) {
    forall k :: k in group ==> Value(low, k) <= Value(high, k) && (k in low ==> k in high)
  }

  lemma ExclusionDescends(group: set<Macro>, low: Config, high: Config)
    requires Natural(low) && GroupBelow(group, low, high) && AtMostOne(group, high)
    ensures AtMostOne(group, low)
  {
  }

  lemma LoneDescends(group: set<Macro>, low: Config, high: Config)
    requires GroupBelow(group, low, high) && Lone(group, high)
    ensures Lone(group, low)
  {
  }

  /** The macros the overlap checks compare with others. */
  const RIVALS: set<Macro> := GROUP_0 + GROUP_1 + GROUP_2 + COMPARATORS + TIMER4_USERS

  lemma GroupsAreRivals(low: Config, high: Config)
    requires GroupBelow(RIVALS, low, high)
    ensures GroupBelow(GROUP_0, low, high) && GroupBelow(GROUP_1, low, high)
    ensures GroupBelow(GROUP_2, low, high) && GroupBelow(SPI2_DRIVERS, low, high)
    ensures GroupBelow(COMPARATORS, low, high) && GroupBelow(TIMER4_USERS, low, high)
  {
  }

  lemma SameExclusion(group: set<Macro>, a: Config, b: Config)
    requires forall k :: k in group ==> Value(a, k) == Value(b, k)
    ensures AtMostOne(group, a) <==> AtMostOne(group, b)
  {
  }

  lemma GroupsWithinRivals()
    ensures GROUP_0 <= RIVALS && GROUP_1 <= RIVALS && GROUP_2 <= RIVALS
    ensures SPI2_DRIVERS <= RIVALS && COMPARATORS <= RIVALS && TIMER4_USERS <= RIVALS
  {
  }

  lemma UnsharedOfValues(a: Config, b: Config)
    requires forall k :: k in RIVALS ==> Value(a, k) == Value(b, k)
    ensures Unshared(a) <==> Unshared(b)
    ensures AtMostOne(TIMER4_USERS, a) <==> AtMostOne(TIMER4_USERS, b)
  {
    GroupsWithinRivals();
    SameExclusion(GROUP_0, a, b);
    SameExclusion(GROUP_1, a, b);
    SameExclusion(SPI2_DRIVERS, a, b);
    SameExclusion(COMPARATORS, a, b);
    SameExclusion(TIMER4_USERS, a, b);
  }

  /** Safety depends on the values of the rivals, the clock and sharing. */
  lemma SafetyOfValues(a: Config, b: Config)
    requires forall k :: k in RIVALS ==> Value(a, k) == Value(b, k)
    requires Value(a, CLOCK_ENABLED) == Value(b, CLOCK_ENABLED)
    requires Value(a, PERIPHERAL_RESOURCE_SHARING_ENABLED) == Value(b, PERIPHERAL_RESOURCE_SHARING_ENABLED)
    ensures Safe(a) <==> Safe(b)
    ensures (Clocked(a) <==> Clocked(b)) && (Unshared(a) <==> Unshared(b))
  {
    GroupsWithinRivals();
    UnsharedOfValues(a, b);
    assert NFC_HAL_ENABLED in TIMER4_USERS;
  }

  lemma UnsharedDescends(low: Config, high: Config)
    requires Natural(low) && GroupBelow(RIVALS, low, high) && Unshared(high)
    ensures Unshared(low)
  {
    GroupsAreRivals(low, high);
    ExclusionDescends(GROUP_0, low, high);
    ExclusionDescends(GROUP_1, low, high);
    ExclusionDescends(SPI2_DRIVERS, low, high);
    ExclusionDescends(COMPARATORS, low, high);
  }

  lemma UnsharedTameDescends(low: Config, high: Config, chip: Chip)
    requires GroupBelow(RIVALS, low, high) && UnsharedTame(high, chip)
    ensures UnsharedTame(low, chip)
  {
    GroupsAreRivals(low, high);
    LoneDescends(GROUP_0, low, high);
    LoneDescends(GROUP_1, low, high);
    if chip.lpcomp {
      LoneDescends(COMPARATORS, low, high);
    }
    assert SPI2_ENABLED in GROUP_2 && SPIS2_ENABLED in GROUP_2 && SPIM2_ENABLED in GROUP_2;
  }

  lemma TameDescends(low: Config, high: Config, chip: Chip)
    requires GroupBelow(RIVALS, low, high) && Tame(high, chip)
    requires SharingOff(low) ==> SharingOff(high)
    ensures Tame(low, chip)
  {
    GroupsAreRivals(low, high);
    if chip.nfct {
      LoneDescends(TIMER4_USERS, low, high);
    }
    if SharingOff(low) {
      UnsharedTameDescends(low, high, chip);
    }
  }

  /** What can be lost by lowering macros: the clock under NFC, and the sharing
      that let drivers stand side by side. */
  lemma SafetyLowered(low: Config, high: Config, chip: Chip)
    requires Natural(low) && GroupBelow(RIVALS, low, high)
    requires Safe(high) && Tame(high, chip) && (SharingOff(high) ==> SharingOff(low))
    ensures Safe(low) && Tame(low, chip) <==>
            && Clocked(low)
            && (SharingOff(low) && !SharingOff(high) ==> Unshared(low) && UnsharedTame(low, chip))
  {
    GroupsAreRivals(low, high);
    ExclusionDescends(TIMER4_USERS, low, high);
    if chip.nfct {
      LoneDescends(TIMER4_USERS, low, high);
    }
    if SharingOff(high) {
      UnsharedDescends(low, high);
      UnsharedTameDescends(low, high, chip);
    }
  }
}
