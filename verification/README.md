# LED layer and build configuration of the nRF5 SDK, in Dafny

The project models two parts of the SDK and proves what they promise.

**The board LED layer.** A board's LEDs are driven through one 32-bit OUT word
in two ways: by index, through a pin table (`boards.c`), and by mask, through
macros that write OUTSET and OUTCLR (`boards.h`). `Words` gives words and pins,
`Gpio` the port registers and the pin functions of `nrf_gpio.h`, `LedBoard` the
effect of every call and macro on OUT together with the vector of LED states a
caller has in mind, and `LedAccess` the register accesses each is made of.
`Board` holds the calls and macros themselves as methods over a port, each tied
to its effect and to its accesses in their order. `LedTheorems` says exactly
for which boards the two interfaces are one. `Interleaving` lets any number of
contexts (a main loop and interrupt handlers) interleave these accesses, and
`LedSettling` shows that no call or macro makes a pin flicker. `Boards` applies
the results to three board headers, two of which are wired against themselves.

**The build configuration.** `sdk_config.h` is a flat file of guarded
definitions, read after the application's own; `sdk_validation.h` refuses some
of the results. `OptionForest` takes the file as a forest of options, resolves
it in file order, and defines without any order which environment the file
stands for. `Preprocessor` is the line-by-line machine and shows that the flat
text means what the forest means. `PairTests` treats lists of pairwise overlap
tests in general, `SdkValidation` transcribes the checks, `SdkAcceptance` says
exactly which macro environments they accept, `SdkOptions` transcribes the part
of `sdk_config.h` the checks can see, `SdkMacros` says what each of its macros
ends as, and `SdkBuild` puts the file and the checks together. `SdkSmallBuilds`
says which builds that set a switch or two are accepted, and `SdkFindings` holds
the cases in which the checks do not do what their messages say, each with the
exact condition over whole builds.

Results worth knowing first:

- `LedTheorems.SimulationExactly`: calls and macros together drive the LED
  vector as asked if and only if the pin table is injective, `LEDS_MASK` covers
  it, and the inverse mask matches the active state.
- `Interleaving.Serializable`: contexts that keep to pins of their own leave,
  under every interleaving, the OUT word of running them one after another;
  `Interleaving.InvertsBothExactly` says two `LEDS_INVERT` may lose an update
  exactly when their masks share a pin.
- `OptionForest.ResolveExact`: the resolver computes the one environment that
  explains itself, for every forest, repeated keys included.
- `Preprocessor.LinesReadAsForest`: the flat file and the forest agree, and
  reading the file never redefines a macro.
- `SdkBuild.BuildAcceptedExactly`: whether a build is accepted, on any chip and
  for any natural numbers the application defines, can be told from its
  overrides: they have to be supported and safe, and a switch above 1 must have
  no rival defined, by an override or by the file. `SdkBuild.AcceptedBuildIsSafe`
  is the half the checks are there for.
- `SdkBuild.LoweringExactly`: overrides below those of an accepted build are
  accepted exactly unless they leave NFC without the clock, or give up sharing
  while something is shared or a switch above 1 has a rival defined.

Where code and documentation disagree the model follows the code:

- The error text for `ADC_ENABLED` names SAADC, that for COMP with LPCOMP names
  SPIM2 and SPI2.
- The messages of the overlap checks say that only one driver can be enabled,
  but a driver set to 2 is also refused beside one that is merely defined. So
  `COMP_ENABLED` or `LPCOMP_ENABLED` set to 2 is refused on every chip with
  LPCOMP, because the configuration file always defines the other.
- The checks for instance 2 sum SPI2 and SPIS2 whatever pair they ask for, so
  SPIM2 may stand beside either.
- The check for RTC2 asks for two counters where the third is meant, and lets it
  through on nRF51 chips. The check for SPIS2 makes the same slip, but no chip
  header of the SDK has two SPI slaves: it is right on nRF51 and nRF52, and
  only a chip with two would expose it. Its message names SPI2, which it
  never looks at; on nRF51 chips SPI2 is let through.
- `PCA10031` inverts LEDs it calls active high and `ARDUINO_PRIMO` does not
  invert an LED it calls active low.

## Model

| member | source | states |
|---|---|---|
| Words.PinMaskBits | sdk/components/boards/boards.h:190-235 | the OR of `1 << pin` over any list has the bit of a pin exactly when the list holds it |
| Words.WordsByBits | sdk/components/device/nrf51.h:1086-1097 | two 32-bit words are equal exactly when they agree on every pin |
| Words.SelectedMask | sdk/components/boards/boards.h:232-235 | picking the listed pins named by a mask gives the mask of the list cut down to it |
| Words.FlipByPartsIsXor | sdk/components/boards/boards.h:304-307 | setting the low pins of a mask and clearing those that were high flips exactly the mask |
| Gpio.PinCnfFields | sdk/components/drivers_nrf/hal/nrf_gpio.h:504-519 | each field of a PIN_CNF word reads back as written |
| Gpio.OutputWord | sdk/components/drivers_nrf/hal/nrf_gpio.h:522-531 | the output configuration is the word 3: direction and input bits 1, pull, drive and sense 0 |
| Gpio.InputWord | sdk/components/drivers_nrf/hal/nrf_gpio.h:534-543 | the input configuration is the pull moved to bits 2 and 3, every other field 0 |
| Gpio.Port.ReadOut | sdk/components/drivers_nrf/hal/nrf_gpio.h:640 | yields OUT and is recorded as a read |
| Gpio.Port.WriteOutset | sdk/components/device/nrf51_bitfields.h:777-785 | ones of a word written to OUTSET go high, the rest of OUT stays, and the write is recorded |
| Gpio.Port.WriteOutclr | sdk/components/device/nrf51_bitfields.h:1004-1012 | ones of a word written to OUTCLR go low, the rest of OUT stays, and the write is recorded |
| Gpio.Port.PinSet | sdk/components/drivers_nrf/hal/nrf_gpio.h:622-627 | the pin goes high, the rest of OUT stays |
| Gpio.Port.PinClear | sdk/components/drivers_nrf/hal/nrf_gpio.h:630-635 | the pin goes low, the rest of OUT stays |
| Gpio.Port.PinToggle | sdk/components/drivers_nrf/hal/nrf_gpio.h:638-645 | one read and two writes flip the pin and nothing else |
| Gpio.Port.PinWrite | sdk/components/drivers_nrf/hal/nrf_gpio.h:648-658 | zero clears the pin, any other value sets it, other pins stay |
| Gpio.Port.PinOutRead | sdk/components/drivers_nrf/hal/nrf_gpio.h:669-674 | reads 1 or 0 by the pin's bit in OUT |
| Gpio.Port.PinRead | sdk/components/drivers_nrf/hal/nrf_gpio.h:661-666 | reads 1 or 0 by the pin's bit in IN |
| Gpio.Port.CfgOutput | sdk/components/drivers_nrf/hal/nrf_gpio.h:522-531 | the pin's register becomes 3, read field by field as an output with its input buffer off; every other register stays |
| Gpio.Port.CfgInput | sdk/components/drivers_nrf/hal/nrf_gpio.h:534-543 | the pin's register becomes the pull in bits 2 and 3, read field by field as a connected input with that pull; every other stays |
| Board.BoardSupport.LedStateGet | sdk/components/boards/boards.c:53-58 | true exactly when the LED's pin is at the active level |
| Board.BoardSupport.LedOn | sdk/components/boards/boards.c:60-64 | OUT becomes what the operation makes of it, by one write: OUTSET of the pin if LEDs are active high, else OUTCLR |
| Board.BoardSupport.LedOff | sdk/components/boards/boards.c:66-70 | OUT becomes what the operation makes of it, by one write: OUTCLR of the pin if LEDs are active high, else OUTSET |
| Board.BoardSupport.LedInvert | sdk/components/boards/boards.c:90-94 | the pin's level flips, by one read of OUT and the two writes that follow from it |
| Board.BoardSupport.LedsOff | sdk/components/boards/boards.c:72-79 | the loop writes every pin of the table to the inactive level, by one access per pin in table order |
| Board.BoardSupport.LedsOn | sdk/components/boards/boards.c:81-88 | the loop writes every pin of the table to the active level, by one access per pin in table order |
| Board.BoardSupport.LedsInit | sdk/components/boards/boards.c:96-104 | every LED pin reads as an output with its input buffer off and every LED is out; the configuration and level of every other pin are unchanged, for any table |
| Board.BoardSupport.LedIdxToPin | sdk/components/boards/boards.c:106-110 | the pin at the index; the lookup leads back to the index when no pin is listed twice |
| Board.BoardSupport.PinToLedIdx | sdk/components/boards/boards.c:112-125 | the least index holding the pin, or 0xFFFFFFFF when no index does |
| Board.BoardSupport.MaskOff | sdk/components/boards/boards.h:294-296 | first OUTSET of exactly the LEDs of the mask that are inverted, then OUTCLR of exactly the others, and nothing else |
| Board.BoardSupport.MaskOn | sdk/components/boards/boards.h:298-300 | first OUTCLR of exactly the LEDs of the mask that are inverted, then OUTSET of exactly the others, and nothing else |
| Board.BoardSupport.MaskInvert | sdk/components/boards/boards.h:304-307 | one copy of OUT, then OUTSET of exactly the pins of the mask low in it, then OUTCLR of exactly those high in it: OUT xor the mask |
| Board.BoardSupport.MaskIsOn | sdk/components/boards/boards.h:302 | has exactly the pins of the mask whose level differs from their bit in the inverse mask, on every board and for every mask |
| Board.TellsLedIsOn | sdk/components/boards/boards.h:302 | a word that tells the pins so is the word the macro computes |
| Board.MaskIsOnReports | sdk/components/boards/boards.h:302 | on a board wired for it, nonzero exactly when some LED of the mask is lit |
| Board.MaskIsOnReportsDark | sdk/components/boards/boards.h:302 | on a board inverted the wrong way, nonzero exactly when some LED of the mask is out |
| Board.BoardSupport.Configure | sdk/components/boards/boards.h:309-313 | exactly the pins whose bit is in the mask come to read as outputs with their input buffer off |
| Board.BoardSupport.ButtonStateGet | sdk/components/boards/boards.c:129-134 | true exactly when the button's pin reads its active level |
| Board.BoardSupport.ButtonsInit | sdk/components/boards/boards.c:136-143 | exactly the button pins come to read as connected inputs with the board's pull |
| Board.BoardSupport.PinToButtonIdx | sdk/components/boards/boards.c:145-158 | the least index holding the pin, or 0xFFFFFFFF when no index does |
| Board.BoardSupport.ButtonIdxToPin | sdk/components/boards/boards.c:160-164 | the pin at the index; the lookup leads back to the index when no pin is listed twice |
| Board.FoundPinReturns | sdk/components/boards/boards.c:106-125 | a pin is found exactly when the table holds it, and the index found leads back to it |
| Board.IndexReturnsExactly | sdk/components/boards/boards.c:106-125 | every index is found again from its pin exactly when no pin is listed twice |
| Board.MaskAgreesWithLookupExactly | sdk/components/boards/boards.h:190-235 | LEDS_MASK and the lookup agree on every pin exactly when slots and table name the same pins |
| Board.ConfigureMatchesInitExactly | sdk/components/boards/boards.h:309-313 | configuring by LEDS_MASK and by the table end alike exactly when both name the same pins, outputs already configured aside |
| LedBoard.ApplyBit | sdk/components/boards/boards.h:294-307 | every call and macro does to each pin what its own wiring says and leaves every other pin alone |
| LedTheorems.MaskMembership | sdk/components/boards/boards.h:190-291 | LEDS_MASK and BUTTONS_MASK have a pin's bit exactly when some defined slot names the pin |
| LedTheorems.SimulationExactly | sdk/components/boards/boards.c:53-94 | calls and macros drive the LED vector as asked, on every word, exactly for injective, covered, polarity-matched boards |
| LedTheorems.RunSimulates | sdk/components/boards/boards.c:53-94 | any run mixing calls and macros ends at the vector asked for |
| LedTheorems.ReportsExactly | sdk/components/boards/boards.h:302 | LED_IS_ON is nonzero exactly when some LED of the mask is lit, for all words and all masks inside LEDS_MASK, if and only if LEDS_MASK stays inside the table and the LEDs it holds match in polarity |
| LedTheorems.ReportsDarkExactly | sdk/components/boards/boards.h:302 | it reports that some LED of the mask is out instead, if and only if the LEDs that LEDS_MASK holds are inverted the wrong way |
| LedTheorems.RunReports | sdk/components/boards/boards.h:302 | after any run both interfaces report the vector asked for |
| LedBoard.LoopWrites | sdk/components/boards/boards.c:60-70 | the run of on or off calls for the LEDs of a mask writes exactly the table pins in the mask |
| LedTheorems.MacrosAreLoopsExactly | sdk/components/boards/boards.h:294-300 | LEDS_ON and LEDS_OFF equal the run of index calls for the LEDs of the mask, for all masks and words, exactly when LEDS_MASK is the table and the polarity matches |
| LedTheorems.MacrosSwappedExactly | sdk/components/boards/boards.h:294-300 | LEDS_ON equals the run of off calls and LEDS_OFF that of on calls exactly when LEDS_MASK is the table and every LED is inverted the wrong way |
| LedTheorems.RunFrame | sdk/components/boards/boards.h:294-307 | over a whole run a pin outside the table changes only by the inversions naming it |
| LedTheorems.InversionParity | sdk/components/boards/boards.h:304-307 | after any list of inversions each pin shows the parity of those naming it |
| LedTheorems.InvertTwice | sdk/components/boards/boards.h:304-307 | a list of inversions made twice is the identity on OUT |
| LedTheorems.AllOffTurnsOff | sdk/components/boards/boards.c:72-79 | every LED goes out and no other pin changes, for any table |
| Boards.Pca10040WellWired | sdk/components/boards/pca10040.h:50-68 | this active-low kit meets every condition of the LED theorems |
| Boards.MiswiredBoards | sdk/components/boards/arduino_primo.h:48-58 | on this board and on PCA10031 LEDS_ON and LEDS_OFF trade places with respect to the index calls and LED_IS_ON tells that an LED is out |
| Boards.BoardsReport | sdk/components/boards/boards.h:302 | on each of the three boards what a nonzero LED_IS_ON means: some LED lit on PCA10040, some LED out on the other two |
| Boards.Pca10040Mask | sdk/components/boards/pca10040.h:50-68 | LEDS_MASK and LEDS_INV_MASK of the board are 0x1E0000 |
| Boards.Pca10031Mask | sdk/components/boards/pca10031.h:50-70 | LEDS_MASK and LEDS_INV_MASK of the board are 0xE00000 |
| Boards.ArduinoPrimoMask | sdk/components/boards/arduino_primo.h:48-58 | LEDS_MASK of the board is 0x2000000 and LEDS_INV_MASK is 0 |
| LedAccess.AccessesApply | sdk/components/boards/boards.h:294-307 | uninterrupted, the register accesses of a call or macro amount to its effect |
| LedSettling.SettlesOnce | sdk/components/boards/boards.h:294-307 | along the accesses of any call or macro, a pin that has reached its final level stays there |
| LedSettling.NeverDisturbed | sdk/components/boards/boards.h:294-307 | a pin that a call or macro leaves as it was does not move on the way |
| Interleaving.ProspectInvariant | sdk/components/boards/boards.h:294-307 | at every point of every interleaving the only writer of a pin is on its way to what it would do alone |
| Interleaving.NoUpdateLost | sdk/components/boards/boards.h:294-307 | once all contexts are done each pin is as its owner alone would leave it |
| Interleaving.ConcurrentSimulation | sdk/components/boards/boards.c:53-94 | each context's LEDs end as its own program asks |
| Interleaving.Serializable | sdk/components/boards/boards.h:294-307 | every interleaving of contexts with separate pins leaves the OUT word of running them in a row |
| Interleaving.CanFinish | sdk/components/boards/boards.h:294-307 | from any point some schedule lets every context finish |
| Interleaving.InvertsBothExactly | sdk/components/boards/boards.h:304-307 | two LEDS_INVERT keep both updates under every interleaving exactly when their masks share no pin |
| OptionForest.ResolveExact | sdk/config/sdk_config.h:44-55 | reading in file order gives the one environment in which every macro is its override or the first default in force |
| OptionForest.ResolveDistinct | sdk/config/sdk_config.h:3577-3626 | a macro is its override, else its default when every option around it is nonzero, else undefined |
| OptionForest.DefinedExactly | sdk/config/sdk_config.h:3577-3626 | a macro ends up defined exactly when it is overridden or every option around its own is nonzero |
| OptionForest.OrderIrrelevant | sdk/config/sdk_config.h:3577-3748 | files with the same options under the same parents resolve alike, whatever the order of siblings |
| OptionForest.BlocksCommute | sdk/config/sdk_config.h:3577-3748 | two blocks of distinct options can change places |
| OptionForest.ResolveExtends | sdk/config/sdk_config.h:52-54 | a macro once defined keeps its value |
| OptionForest.RepeatedBlockIsDead | sdk/config/sdk_config.h:6174-6457 | a block that repeats an earlier one's options has no effect, whatever its defaults and position |
| OptionForest.ResolveIdempotent | sdk/config/sdk_config.h:41-55 | reading the file a second time changes nothing |
| OptionForest.LowerOverrides | sdk/config/sdk_config.h:44-55 | lowering overrides in place defines no new macro and raises none |
| OptionForest.PruneFaithful | sdk/config/sdk_config.h:52-55 | dropping options of no interest changes no macro of interest |
| Preprocessor.LinesReadAsForest | sdk/config/sdk_config.h:52-151 | the flat text of any forest reads as the forest resolves, without redefinition or imbalance |
| Preprocessor.ReadTwice | sdk/config/sdk_config.h:41-46 | the text read twice over means the text read once |
| Preprocessor.ReadKeepsDefinitions | sdk/config/sdk_config.h:41-55 | any file that reads without fault closes every group it opens and leaves every earlier definition as it was |
| Preprocessor.Machine.Obey | sdk/config/sdk_config.h:52-55 | one directive moves the machine as the conditional-group rules of section 6.10.1 of ISO/IEC 9899 say |
| Preprocessor.Machine.Process | sdk/config/sdk_config.h:41-46 | the whole file, line by line, and whether it ends well |
| Preprocessor.IfGroup | sdk/config/sdk_config.h:3582-3583 | a group under `#if` is read exactly when its macro is defined and nonzero, so under an undefined one it is skipped |
| Preprocessor.IfNotDefinedGroup | sdk/config/sdk_config.h:52-54 | a group under `#ifndef` is read exactly when its macro is not defined |
| Preprocessor.RedefinitionRejected | sdk/config/sdk_config.h:52-54 | a file that gives a defined macro another value is rejected, whatever follows |
| Preprocessor.Build | sdk/config/sdk_config.h:44-55 | reading the lines of a file after the overrides yields the resolved environment |
| PairTests.ExclusiveExactly | sdk/components/sdk_validation.h:107-257 | a list of pair tests keeps a group exclusive exactly when some test is about each pair |
| PairTests.AllPairsExclusive | sdk/components/sdk_validation.h:109-182 | testing every pair of a list of drivers keeps the drivers exclusive |
| PairTests.AllPairsExactly | sdk/components/sdk_validation.h:109-182 | for all natural values, testing every pair accepts exactly the configurations in which at most one driver is on and a driver above 1 has no other driver defined |
| PairTests.LargeValueRefused | sdk/components/sdk_validation.h:109-112 | any driver above 1 is refused beside any other that is defined, even to 0 |
| SdkValidation.PresenceExactly | sdk/components/sdk_validation.h:52-104 | the unconditional checks pass exactly when the chip supports everything turned on |
| SdkValidation.TestsCoverInstances0And1 | sdk/components/sdk_validation.h:109-257 | the tests of instances 0 and 1 keep each group of six exclusive |
| SdkValidation.TestsMissInstance2 | sdk/components/sdk_validation.h:259-272 | the tests of instance 2 do not keep its group exclusive |
| SdkValidation.Tests2Exactly | sdk/components/sdk_validation.h:259-272 | the three tests of instance 2 pass exactly when SPI2 and SPIS2 add up to at most 1 or fewer than two of its macros are defined |
| SdkValidation.Instance2Exactly | sdk/components/sdk_validation.h:259-272 | what passes them is exclusive exactly when SPIM2 is off or both others are |
| SdkAcceptance.AcceptedExactly | sdk/components/sdk_validation.h:52-298 | for all natural values the checks accept exactly what the chip supports, is safe, and has no switch above 1 beside a defined rival |
| SdkOptions.VisibleReadsOnce | sdk/config/sdk_config.h:5886-6457 | the configuration reads as if its second NFC block were absent |
| SdkOptions.VisibleOnceDistinct | sdk/config/sdk_config.h:1735-6169 | without that block the options the checks can see are distinct |
| SdkOptions.WhatTheChecksSee | sdk/config/sdk_config.h:1735-6457 | in any file with these visible options the macros the checks read resolve as in the visible part |
| SdkOptions.OnlyOverridesAreOn | sdk/config/sdk_config.h:1735-5889 | a build turns on exactly what its overrides turn on |
| SdkMacros.BuildFinds | sdk/config/sdk_config.h:1735-6169 | every visible macro of every SDK file ends as its override, else as its default if the overrides turn on every option around it, else undefined |
| SdkMacros.OutermostDefined | sdk/config/sdk_config.h:1735-5889 | the fourteen options outside every other are always defined, to their override or to 0 |
| SdkMacros.SwitchedExactly | sdk/config/sdk_config.h:3197-4113 | a driver under a switch is its override, else 0 when the switch is on, else undefined |
| SdkMacros.NotInFileExactly | sdk/config/sdk_config.h:1735-6169 | the SPIM and TWIM drivers and ADC are what the application defines |
| SdkMacros.NfcOptionExactly | sdk/config/sdk_config.h:5903-5965 | with NFC on and no override, its interrupt priority is 7 and its logging and debugging switches are 0 |
| SdkMacros.NfcLogExactly | sdk/config/sdk_config.h:5921-5956 | with NFC and its logging on and no override, the level is 3 and the colors are 0 |
| SdkBuild.AcceptedSeesVisible | sdk/components/sdk_validation.h:52-298 | acceptance depends only on the macros the checks read |
| SdkBuild.AcceptedBuildIsSafe | sdk/components/sdk_validation.h:107-298 | an accepted build has NFC only with the clock and without TIMER4, and without sharing at most one driver per instance 0 and 1 not SPI2 beside SPIS2, and at most one comparator, on every chip |
| SdkBuild.BuildAcceptedExactly | sdk/components/sdk_validation.h:43-298 | for all natural overrides, a whole build is accepted exactly when the overrides are supported and safe and none above 1 has a rival that an override or the file defines |
| SdkBuild.CheckedBuild | sdk/components/sdk_validation.h:43-44 | reading the file and running the checks yields the resolved environment and the verdict, and a good verdict means a safe build |
| SdkBuild.LoweringExactly | sdk/components/sdk_validation.h:278-296 | natural overrides below those of an accepted build are accepted exactly when NFC keeps its clock and, if sharing is given up, nothing is shared and no switch above 1 has a defined rival |
| SdkBuild.LoweringKeepsAcceptance | sdk/components/sdk_validation.h:52-298 | with clock and sharing fixed lowering keeps a build accepted, and with the same macros overridden it raises no macro the checks read |
| SdkMacros.DebugPinsKeepFirstDefaults | sdk/config/sdk_config.h:6002-6163 | a debugging pin is its override or the first block's default, never the second block's |
| SdkMacros.ExchangedPins | sdk/config/sdk_config.h:6174-6457 | with the two NFC blocks exchanged every debugging pin not overridden would be 31 |
| SdkFindings.DefaultBuildAccepted | sdk/components/sdk_validation.h:52-298 | without overrides the configuration is accepted on every chip |
| SdkSmallBuilds.LargeComparatorRefusedExactly | sdk/components/sdk_validation.h:292-296 | a build that only sets one comparator above 1 is supported and safe, and refused exactly on chips with LPCOMP |
| SdkSmallBuilds.PresenceBuilds | sdk/components/sdk_validation.h:52-104 | each switch that the unconditional checks name, alone in the overrides, is accepted exactly on the chips that have what its check asks |
| SdkSmallBuilds.NfcAcceptedExactly | sdk/components/sdk_validation.h:80-82 | NFC with the clock is accepted exactly on the chips with NFCT |
| SdkSmallBuilds.UncheckedBuilds | sdk/components/sdk_validation.h:52-104 | every other switch, alone, is accepted on every chip |
| SdkSmallBuilds.TwoSwitchesExactly | sdk/components/sdk_validation.h:52-298 | exactly which two switches an application can turn on together, on which chips |
| SdkSmallBuilds.NfcBesideExactly | sdk/components/sdk_validation.h:278-286 | beside NFC and its clock any other supported switch is accepted, TIMER4 alone excepted |
| SdkSmallBuilds.LargeSwitchExactly | sdk/components/sdk_validation.h:107-296 | exactly when a switch may be set above 1 beside one set to 0, on which chips |
| SdkFindings.KnownChipsRefuse | sdk/components/device/nrf52832_peripherals.h:93-227 | exactly which switches nRF51 and nRF52 chips are refused for want of a peripheral |
| SdkFindings.BuildInstance2Exactly | sdk/components/sdk_validation.h:259-272 | an accepted build with sharing off keeps instance 2 exclusive exactly when its overrides leave SPIM2 off or both others |
| SdkFindings.Instance2KeptExactly | sdk/components/sdk_validation.h:259-272 | all accepted builds overriding the same macros keep instance 2 exclusive exactly when SPIM2 is not among them beside SPI2, nor beside SPIS2 on a chip that passes its check |
| SdkFindings.Instance2BuildOverlaps | sdk/components/sdk_validation.h:264-272 | a whole build with sharing disabled is accepted with SPIM2 and SPIS2 both on |
| SdkFindings.ProtectsExactly | sdk/components/sdk_validation.h:84-104 | over all accepted builds a switch is on only on chips fitted for it exactly when the chip is fitted or its check refuses the chip |
| SdkFindings.Rtc2CheckExactly | sdk/components/sdk_validation.h:86-88 | accepted builds have RTC2 on only on chips with a third counter exactly when the chip does not have two |
| SdkFindings.Spis2CheckExactly | sdk/components/sdk_validation.h:96-98 | the same for SPIS2 and a third SPI slave |
| SdkFindings.Spi2CheckExactly | sdk/components/sdk_validation.h:96-98 | SPI2, which the message names, is protected only on chips that have it |
| SdkFindings.KnownChips | sdk/components/device/nrf51822_peripherals.h:101-125 | the SPIS2 check is right on nRF51 and nRF52; RTC2 and SPI2 go unprotected on nRF51 only |
| SdkFindings.ThirdInstancesOnNrf51 | sdk/components/device/nrf51822_peripherals.h:101-121 | a whole build turning RTC2 and SPI2 on is accepted on a chip with two of each |
| SdkFindings.ClockOffExactly | sdk/components/sdk_validation.h:278-281 | switching the clock off breaks an accepted build exactly when it uses NFC |
| SdkFindings.SharingOffExactly | sdk/components/sdk_validation.h:292-296 | withdrawing sharing breaks an accepted build exactly when something is shared or a switch above 1 has a defined rival |
| SdkFindings.LoweringClockBreaks | sdk/components/sdk_validation.h:278-281 | an accepted build that lowering the clock breaks |
| SdkFindings.LoweringSharingBreaks | sdk/components/sdk_validation.h:292-296 | an accepted build that lowering the sharing macro breaks |

## Left out

- The second port of chips with two GPIO ports: pin numbers are below 32, as the mask macros need; `nrf_gpio_pin_port_decode` for a higher pin is not modelled.
- `ASSERT` on an index is the caller's obligation (`requires`); what a release build does with an index outside the table is not modelled.
- The signedness of `1 << 31` in C: masks are 32-bit words.
- Macros whose replacement is empty or not an integer, and the width of preprocessor integers: every macro stands for a mathematical integer, so sums in `#if` do not overflow.
- The options of `sdk_config.h` that neither the checks read nor enclose such an option: the results hold for any file whose visible options are those transcribed in `SdkOptions`, whatever the others are.
- Preprocessor directives the configuration file does not use (`#else`, `#elif`, `#undef`, nested inclusion).
- Interrupt priorities and nesting: contexts interleave freely, which includes every preemption; accesses that write OUT or several registers at once do not occur in the modelled code.
- The value of the IN register over time: it is whatever the port holds when read.
- Per-board pin constants other than the LED lists of three boards, UART, SPI and Arduino pins.
- messenger.py, the drivers, the register-renaming headers and the hardware behind the registers.
