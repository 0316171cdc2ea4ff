# Verified models of ProxorGUI's core algorithms

A Dafny model of the parts of ProxorGUI whose correctness is not plain from reading one function, with proofs of what
they promise. `dafny verify dfyconfig.toml` checks everything. Five groups of code are covered; they share no more than
`Orders`, `Options` and a shift.

**QR symbols** (`3rdparty/qrcodegen.cpp`). Arithmetic in GF(2^8) with the polynomial 0x11D, the Reed-Solomon divisor and
remainder loops, splitting into blocks and interleaving, segments and their bit stream, the zigzag placement, masking
and the choice of a mask. Field elements are 8-bit vectors; bit strings are sequences of `bool`; the symbol is a class
over two-dimensional arrays. The loops are proved against definitions that have laws of their own: multiplication is
commutative, associative and distributive, the divisor is the product of (x - 2^i), and the remainder loop is polynomial
remainder, so every codeword vanishes at the roots, and the check symbols are the only ones that make it do so. Two
blocks with different data then differ in more places than there are check symbols, so that a block with up to half as
many wrong ones belongs to one message only. A reader written from sections 7.3 to 7.8 of ISO/IEC 18004:2015 gets back
what was encoded, through every stage. What such a reader shares with the writer is set against the standard apart from
both: the order of the zigzag, bit order and widths, filling, blocks, mask patterns and format words.

**Profiles and subscriptions** (`src/db/Database.cpp`, `src/db/ProfileFilter.cpp`, `src/sub/GroupUpdater.cpp`, and
moving tabs in `src/ui/mainwindow.cpp`). `ProfileManager` is a class whose fields are the maps, id lists, tab order,
per-group index and tables; `Store` is its value, and each method is tied to a function on values. Over every sequence
of its operations, of subscription updates and of moved tabs the id lists enumerate, the index answers like one that is
rebuilt, loading the tables gives back what is in memory, and the display order and toggle list of every group name
profiles of that group. Then: what a subscription update makes of a group and of what it reports, and renumbering at
start-up, for any display orders, also those that name a profile twice or not at all. Where one of these properties can
fail, there is a theorem on when exactly it holds, and `StoreWitnesses` has a run from the first start, or tables to
start from, where it does not. `StoreEffects` tells what each operation does to everything that can be seen of the store.

**Waking up** (`src/platform/WakeCoordinator.cpp`, `src/platform/WakeSubscriptionRetry.cpp`, `src/ui/mainwindow_wake.cpp`).
Two step machines with the clock as an input, and the window that drives them with timers. Claims are about every history
of events in which the clock does not go back: which actions may come, and, for an onlooker who knows no phases, which do.

**Codecs** (`3rdparty/base64.cpp`, `src/main/windows_runtime_launcher.cpp`). The Base64 decoder, which may work in place,
against the encoding of RFC 4648, sections 4 and 5; and the quoting of command-line arguments against the splitting rules
of Windows.

**Configuration and Wi-Fi** (`src/db/ConfigBuilder.cpp`, `src/sys/WifiMonitor.cpp`, `src/platform/WifiSsid.cpp`). Merging
of custom JSON, building a proxy chain, and the protocol between the Wi-Fi monitor and the thread that reads the SSID, in
every interleaving.

## What does not hold as one might expect

- `DeleteGroup` drops the index entry of its group although the running profile stays: the store stays consistent exactly
  when the group does not hold the running profile (`DeleteGroupKeeps`, `DeletingTheRunningGroupBreaks`).
- `AddGroup` overwrites an index entry that profiles of an unknown group may have under the new id; exactly then the index
  is wrong afterwards (`AddGroupKeeps`, `AddingAGroupBreaks`). The default group made at start-up has the same effect
  (`OpenedIsConsistent`, `StartingWithoutGroupsBreaks`). A saved tab order that names a group twice gives it two tabs
  (`StartingWithATabTwiceBreaks`).
- `SaveProfile` does not tell the index of another group (`SaveProfileKeeps`, `SavingElsewhereBreaks`).
- `AddProfile` leaves a non-empty display order alone, so the new profile is not displayed (`AdditionIsHidden`), and the
  next renumbering drops every profile that is not displayed (`RowsPerProfile`, `HiddenProfileIsLost`).
- Two fetched entries under one key that the group has already put one old id into its order twice, and nothing else does
  (`UpdateMerges`, `UpdateKeepsTidy`). Renumbering then makes two rows of the one profile, and the store is no longer
  consistent; that happens exactly when a profile is displayed twice (`RenumberedIsConsistent`,
  `RepeatedHeldBecomesTwo`). All profiles are kept, each once and in its group, if and only if every group displays
  itself (`EverythingIsKeptExactly`).
- Two fetched entries under one key that the group does not have yet become two profiles, and the same update again
  deletes the older of them: repeating an update changes no profile and no order if and only if each key that was fetched
  twice was there before (`RepeatingChangesNothing`, `RepeatedNewChangesAgain`).
- The report of an update lists as deleted the profiles whose key was not fetched. Of old profiles that share a fetched
  key, all but the latest are deleted without being listed, and the running profile can be listed although it stays. The
  report is right about deletions if and only if neither comes about (`DeletionsAreReported`, `DeletionIsNotReported`).
- Renumbering leaves the front proxies of groups and the lists of chain profiles as they are. They name the same profiles
  afterwards if and only if each id in them is that of the profile displayed at this place, counted from 0 over all tabs
  (`LinksSurviveExactly`, `FrontProxyChanges`, and `HiddenFrontIsLost` for a front proxy that is not displayed).
- While a start is pending the wake coordinator does not look at the core: it may restart the profile although a step in
  between saw the core up (`PendingStartHidesTheCore`). A restart follows a step of the same run that saw the core dead
  eight seconds before, with no step without a pending start seeing it up since; and no step at all saw it up for those
  eight seconds if and only if each that did is followed by one that saw it dead, eight seconds before the restart
  (`RestartFollowsDeath`).
- An array under `+a` of a custom configuration is lost when the same configuration has an entry under `a`: the array is
  put before the old one first, and then the entry replaces both (`BeforeKeyIsLost`). An array under `+a` or `a+` arrives,
  for every source, if and only if its key fires and an entry under `a` is not visited later (`ArrayKeyArrives`); it never
  is for `a+`, and for `+a` it is when `a` begins with a letter or a digit (`TargetComesFirst`).
- The first word of a command line follows simpler rules than the rest. The quoted program path comes back under them
  exactly when it needed no quotation marks, or needed them only for blanks and does not end in a backslash
  (`ProgramNameSurvives`).

## Model

| member | source | states |
|---|---|---|
| GaloisField.Multiply | 3rdparty/qrcodegen.cpp:740-749 | the reduction loop computes the product in GF(2^8), the carry-less Horner form of x over the bits of y |
| GaloisField.DoubleLinear | 3rdparty/qrcodegen.cpp:740-749 | doubling with reduction by 0x11D is linear |
| GaloisField.Distributes | 3rdparty/qrcodegen.cpp:740-749 | the product distributes over addition on both sides |
| GaloisField.Commutes | 3rdparty/qrcodegen.cpp:740-749 | the product is commutative |
| GaloisField.Associates | 3rdparty/qrcodegen.cpp:740-749 | the product is associative |
| GaloisField.MulOne | 3rdparty/qrcodegen.cpp:740-749 | one is neutral on both sides |
| ReedSolomon.ComputeDivisor | 3rdparty/qrcodegen.cpp:702-724 | an error outside 1 to 255; otherwise the generator polynomial of that degree without its leading one |
| ReedSolomon.TimesNextFactor | 3rdparty/qrcodegen.cpp:713-722 | one pass in place multiplies the stored polynomial by the next factor (x - 2^i) |
| ReedSolomon.ComputeRemainder | 3rdparty/qrcodegen.cpp:727-737 | the shift-register loop is division step by step from the front |
| ReedSolomon.RemainderDivides | 3rdparty/qrcodegen.cpp:727-737 | data followed by the remainder is the quotient times the divisor with its leading one |
| ReedSolomon.RemainderIsUnique | 3rdparty/qrcodegen.cpp:727-737 | no other check symbols of that length make a multiple of the divisor |
| ReedSolomon.EvalPolyMul | 3rdparty/qrcodegen.cpp:702-749 | evaluating a product polynomial is the product of the values |
| ReedSolomon.GeneratorVanishes | 3rdparty/qrcodegen.cpp:702-724 | the generator of degree n is zero at 2^0, ..., 2^(n-1) |
| ReedSolomon.GeneratorIsMonic | 3rdparty/qrcodegen.cpp:703-706 | its leading coefficient is one, so it may be left out |
| ReedSolomon.CodewordVanishes | 3rdparty/qrcodegen.cpp:702-749 | for all data and degrees, data with its check symbols is zero at every root of the generator |
| ReedSolomon.CodewordIsTheMultiple | 3rdparty/qrcodegen.cpp:702-749 | a word starting with the data is a multiple of the generator if and only if it ends in the computed check symbols |
| ReedSolomonCode.RootsDiffer | 3rdparty/qrcodegen.cpp:702-724 | the roots 2^0, ..., 2^254 are different, which is why degrees up to 255 are accepted |
| ReedSolomonCode.NoZeroDivisors | 3rdparty/qrcodegen.cpp:740-749 | a product is zero if and only if a factor is |
| ReedSolomonCode.VanishingIsTheCodeword | 3rdparty/qrcodegen.cpp:702-749 | for every degree that is accepted, data and check symbols vanish at all roots of the generator if and only if they are the computed ones |
| ReedSolomonCode.VanishingWordsDiffer | 3rdparty/qrcodegen.cpp:702-749 | two words of up to 255 symbols that vanish at the first n roots are the same or differ in more than n places |
| ReedSolomonCode.OneCodewordIsNear | 3rdparty/qrcodegen.cpp:702-749 | a received block with up to half as many wrong symbols as check symbols belongs to the codeword of one data block only |
| QrBlocks.AddEccAndInterleave | 3rdparty/qrcodegen.cpp:498-533 | a length error or exactly the raw number of codewords, in interleaved order |
| QrBlocks.SplitIntoBlocks | 3rdparty/qrcodegen.cpp:509-521 | all data is used; each block is its part, padded when short, and its check symbols |
| QrBlocks.Interleave | 3rdparty/qrcodegen.cpp:523-532 | column by column, without the padding of short blocks |
| QrBlocks.DeinterleaveGivesBlocks | 3rdparty/qrcodegen.cpp:498-533 | picking every block's positions out of the result gives its data part followed by its check symbols |
| QrBlocks.DeinterleavedBlocksAreCodewords | 3rdparty/qrcodegen.cpp:498-533 | each block taken out vanishes at the roots of the generator |
| QrBlocks.DataIsRecovered | 3rdparty/qrcodegen.cpp:498-533 | the data parts of the de-interleaved blocks concatenate to the input |
| BitBuffers.BitBuffer.AppendBits | 3rdparty/qrcodegen.cpp:823-828 | refuses a length outside 0 to 31 or a value that does not fit; otherwise appends the value, most significant bit first |
| BitBuffers.NatBitsRoundTrip | 3rdparty/qrcodegen.cpp:823-828 | the bits of a value that fits read back as that value |
| QrSegments.MakeNumeric | 3rdparty/qrcodegen.cpp:79-99 | an error exactly when a character is no digit; otherwise the digits in groups of three as 10, 7 or 4 bits |
| QrSegments.MakeAlphanumeric | 3rdparty/qrcodegen.cpp:102-122 | an error exactly when a character is outside the set; otherwise pairs as 11 bits and a single one as 6 |
| QrSegments.MakeBytes | 3rdparty/qrcodegen.cpp:69-76 | an error above INT_MAX bytes, otherwise every byte as eight bits |
| QrSegments.DigitsRoundTrip | 3rdparty/qrcodegen.cpp:79-122 | the number a group of digits makes gives back the digits |
| QrSegments.GroupFits | 3rdparty/qrcodegen.cpp:79-122 | the number of a group fits the bits that are written for it |
| QrEncoding.GetTotalBits | 3rdparty/qrcodegen.cpp:179-193 | -1 when a count does not fit its field or the sum passes INT_MAX, otherwise the length of the bit stream |
| QrEncoding.ChooseVersion | 3rdparty/qrcodegen.cpp:264-284 | the smallest version in the range whose capacity suffices, or an error when none does |
| QrEncoding.WriteSegments | 3rdparty/qrcodegen.cpp:293-299 | mode, count and data of every segment in order |
| QrEncoding.FillCapacity | 3rdparty/qrcodegen.cpp:301-310 | terminator, alignment and alternating pad bytes fill the capacity exactly |
| QrEncoding.PackBits | 3rdparty/qrcodegen.cpp:312-315 | bits into bytes, most significant first: unpacking gives the bits back |
| QrEncoding.EncodeSegments | 3rdparty/qrcodegen.cpp:259-318 | argument and length errors; otherwise the smallest version that holds the data, the level that was asked for or, with boost, one at least as strong than which none stronger has room, and codewords that fill its capacity |
| QrEncoding.ReadValuesUndoesPacking | 3rdparty/qrcodegen.cpp:69-122 | reading groups back gives the digits, characters or bytes that were packed |
| QrEncoding.ReadSegmentsUndoes | 3rdparty/qrcodegen.cpp:293-299 | a reader of the bit stream gives back any list of segments |
| QrEncoding.FillingEnds | 3rdparty/qrcodegen.cpp:301-310 | what follows the segments, a possibly shortened terminator or nothing, makes a reader stop |
| QrEncoding.EncodingIsReadable | 3rdparty/qrcodegen.cpp:259-318 | from the filled codewords a reader gets back exactly the segments |
| QrPath.PathCovers | 3rdparty/qrcodegen.cpp:541-558 | the zigzag reaches every module of the columns it passes |
| QrPath.PathIsSimple | 3rdparty/qrcodegen.cpp:541-558 | and reaches none twice |
| QrPath.ZigzagVisitsEachOnce | 3rdparty/qrcodegen.cpp:541-558 | for every symbol size the zigzag visits each module outside column 6 exactly once, and no other |
| QrPath.PathZigzags | 3rdparty/qrcodegen.cpp:541-558 | for every symbol size of a version: a sequence of modules is the path if and only if it starts in the lower right corner, takes two columns at a time, the right module before the left one, up the first pair, down the second and so on, and steps over column 6 |
| QrGrid.DrawingTouchesOnlyFreeCells | 3rdparty/qrcodegen.cpp:536-560 | no function module changes |
| QrGrid.DrawingUsesTheRoom | 3rdparty/qrcodegen.cpp:559 | the number of bits placed is the smaller of the bits and the free modules, so the closing assertion holds when there is room |
| QrGrid.DrawnDataIsReadBack | 3rdparty/qrcodegen.cpp:536-560 | with room for all, reading along the zigzag gives the bits back |
| QrGrid.EachModuleHoldsItsBit | 3rdparty/qrcodegen.cpp:550-553 | on a path without repetition each free module holds the bit whose number is that of the free modules before it; all else is as it was |
| QrGrid.BitsStandInOrder | 3rdparty/qrcodegen.cpp:536-560 | bit k of the data stands on the k-th free module of that zigzag, whatever computes it |
| QrGrid.MaskingIsAnInvolution | 3rdparty/qrcodegen.cpp:563-584 | applying a mask twice changes nothing |
| QrGrid.RewritingOverwrites | 3rdparty/qrcodegen.cpp:416-440 | writing a fixed set of modules again forgets what they held |
| QrGrid.MaskingCommutesWithWrites | 3rdparty/qrcodegen.cpp:338-355 | masking and writing function modules may change places |
| QrCodes.QrCode.SetFunctionModule | 3rdparty/qrcodegen.cpp:485-490 | colours one module and marks it as a function module; nothing else changes |
| QrCodes.QrCode.DrawCodewords | 3rdparty/qrcodegen.cpp:536-560 | refuses a wrong number of codewords; otherwise the grid becomes the one with the bits of the data placed along the zigzag, which BitsStandInOrder describes |
| QrCodes.QrCode.ApplyMask | 3rdparty/qrcodegen.cpp:563-584 | refuses masks outside 0 to 7; otherwise inverts the modules of the pattern that are no function modules |
| QrCodes.QrCode.ComputeFormatBits | 3rdparty/qrcodegen.cpp:416-424 | the masked 15 bits of level and mask with their check bits |
| QrCodes.QrCode.DrawFormatBits | 3rdparty/qrcodegen.cpp:416-440 | both copies of the format bits and the dark module, marked as function modules |
| QrCodes.FormatCellsAreFixed | 3rdparty/qrcodegen.cpp:426-439 | which modules are written does not depend on level or mask |
| QrCodes.QrCode.FinishWithMask | 3rdparty/qrcodegen.cpp:337-355 | the final grid is, module for module, the trial grid of the chosen mask: the one asked for, or the cheapest, the first of equals |
| QrCodes.QrCode.TryMask | 3rdparty/qrcodegen.cpp:340-349 | from the drawn grid with the format bits of any earlier trial, masking and drawing give the trial grid of this mask |
| QrCodes.TrialForgetsTheLast | 3rdparty/qrcodegen.cpp:338-355 | a trial gives the same grid whichever mask was tried before |
| QrCodes.UnmaskedTrial | 3rdparty/qrcodegen.cpp:338-355 | taking the mask off a trial grid leaves the drawn grid with format bits |
| QrCodes.SymbolHoldsItsBits | 3rdparty/qrcodegen.cpp:320-360 | unmasking and reading the zigzag gives back the bits that were drawn |
| QrSymbol.UnpackIsInjective | 3rdparty/qrcodegen.cpp:312-315 | codewords with the same bits are the same |
| QrSymbol.SymbolDecodes | 3rdparty/qrcodegen.cpp:259-360 | from a finished symbol: unmask, read, de-interleave, drop the check symbols and parse, and the payloads come back |
| QrStandard.FieldBits | 3rdparty/qrcodegen.cpp:823-828 | bit k of a field of len bits is that of weight 2^(len-1-k) |
| QrStandard.HeaderIs | 3rdparty/qrcodegen.cpp:57-66 | a segment begins with the indicator of its mode in table 2 and its count in the width of table 3, for versions up to 9, 26 and 40 |
| QrStandard.TotalIs | 3rdparty/qrcodegen.cpp:179-193 | the bits needed are 4, the width of the count and the data for each segment, and -1 if and only if a count does not fit or the sum passes INT_MAX |
| QrStandard.CharacterTable | 3rdparty/qrcodegen.cpp:230 | digits, letters and nine signs have the values from 0, 10 and 36 on, and no other character has one |
| QrStandard.DigitGroups | 3rdparty/qrcodegen.cpp:79-99 | 100a + 10b + c in ten bits for three digits, 10a + b in seven for two that are left, one in four |
| QrStandard.DigitIsItsValue | 3rdparty/qrcodegen.cpp:84-87 | the digits 0 to 9 have the values 0 to 9 |
| QrStandard.CharacterGroups | 3rdparty/qrcodegen.cpp:102-122 | 45a + b in eleven bits for two characters, one that is left in six |
| QrStandard.BytesAsTheyAre | 3rdparty/qrcodegen.cpp:69-76 | in byte mode the bits written are those of the bytes, as the packed codewords have them |
| QrStandard.FillingIs | 3rdparty/qrcodegen.cpp:301-310 | after the data zeros, for a terminator of four or fewer and up to the next codeword, then 11101100 and 00010001 by turns |
| QrStandard.BlocksAreEven | 3rdparty/qrcodegen.cpp:503-521 | the data is cut in order into blocks whose lengths differ by one at most, shorter ones first |
| QrStandard.RowsComeInOrder | 3rdparty/qrcodegen.cpp:523-532 | first codewords of all blocks come before all second ones and so on, within a row in the order of the blocks |
| QrStandard.FieldPolynomial | 3rdparty/qrcodegen.cpp:740-749 | x^8 is x^4 + x^3 + x^2 + 1, and the roots are the powers of x from the zeroth on |
| QrStandard.FirstGenerators | 3rdparty/qrcodegen.cpp:702-724 | the generators of degree one and two, coefficient by coefficient |
| QrPatterns.MasksAreTiled | 3rdparty/qrcodegen.cpp:571-578 | each mask is the tile that the standard shows, laid over the whole symbol |
| QrPatterns.FormatIsTabled | 3rdparty/qrcodegen.cpp:416-424 | for every level and mask the format word is that of table C.1 |
| QrPatterns.FormatIsReadable | 3rdparty/qrcodegen.cpp:426-440 | both copies of the tabled word stand on a trial grid, bit by bit in their places, and the module that is always dark is |
| ProfileStore.RebuiltAnswers | src/db/Database.cpp:198-207 | a rebuilt index answers with the ascending ids of the profiles of the group, and with nothing for a negative group |
| ProfileStore.RebuiltWithOneMore | src/db/Database.cpp:198-216 | adding one profile to the index of the others is the index of all |
| ProfileStore.ProfileManager.RebuildGroupProfileIndex | src/db/Database.cpp:198-207 | the loops build that index |
| ProfileStore.ProfileManager.AddProfileToGroupIndex | src/db/Database.cpp:209-216 | the id is inserted in order, once, unless the group is negative |
| ProfileStore.ProfileManager.RemoveProfileFromGroupIndex | src/db/Database.cpp:218-222 | the id is removed from a known entry |
| ProfileStore.ProfileManager.AddProfile | src/db/Database.cpp:632-658 | refuses an entity with an id; otherwise a new id, the wanted, current or first group, index, toggle list and rows, and the answer whether the row differs from the one before |
| ProfileStore.ProfileManager.SaveProfile | src/db/Database.cpp:660-674 | writes the row and tells whether it differs from the last one, and adds an unknown profile to map, list and index |
| ProfileStore.ProfileManager.DeleteProfile | src/db/Database.cpp:676-693 | removes a profile from lists, index, maps and tables, unless it is running |
| ProfileStore.ProfileManager.MoveProfile | src/db/Database.cpp:695-720 | takes a profile out of one group and into another, with lists, index and rows |
| ProfileStore.ProfileManager.AddGroup | src/db/Database.cpp:784-804 | refuses an entity with an id; otherwise a new id, a last tab, rows, the current group when there was none, and the answer whether the row differs from the one before |
| ProfileStore.ProfileManager.SaveGroup | src/db/Database.cpp:806-823 | writes the row and tells whether it differs from the last one, and adds an unknown group |
| ProfileStore.ProfileManager.DeleteGroup | src/db/Database.cpp:825-843 | deletes the profiles and the group, unless it is the last one, and moves on the current group |
| ProfileStore.ProfileManager.ProfilesWithOrder | src/db/Database.cpp:853-868 | the display order, or by id when there is none |
| ProfileStore.ProfileManager.LoadFromSqlite | src/db/Database.cpp:302-367 | entities and id lists from the rows, the tab order completed, the index rebuilt |
| ProfileStore.ProfileManager.NormalizedTabOrder | src/db/Database.cpp:354-365 | known groups in saved order, then the groups that are not named |
| ProfileStore.ProfileManager.LoadManager | src/db/Database.cpp:369-403 | loading, a default group when there is none, and a current group that exists |
| ProfileStoreRuns.ReloadGivesTheStore | src/db/Database.cpp:302-367 | loading the tables of a consistent store gives that store: entities, lists, tab order and every answer of the index |
| ProfileStoreRuns.RightMeansLikeRebuilt | src/db/Database.cpp:198-207 | the index is right if and only if it answers every question like a rebuilt one |
| ProfileStoreRuns.NewProfileIdIsFresh | src/db/Database.cpp:624-630 | a new profile id is unused, also in the tables, and keeps the list ascending |
| ProfileStoreRuns.NewGroupIdIsFresh | src/db/Database.cpp:776-782 | so is a new group id |
| ProfileStoreRuns.AddProfileKeeps | src/db/Database.cpp:632-658 | adding a profile keeps the store consistent |
| ProfileStoreRuns.SaveProfileKeeps | src/db/Database.cpp:660-674 | saving keeps it consistent if and only if it does not change the group of a stored profile behind the index |
| ProfileStoreRuns.DeleteProfileKeeps | src/db/Database.cpp:676-693 | deleting a profile keeps it consistent |
| ProfileStoreRuns.MoveProfileKeeps | src/db/Database.cpp:695-720 | moving a stored profile keeps it consistent |
| ProfileStoreRuns.SaveGroupKeeps | src/db/Database.cpp:806-823 | saving a known group keeps it consistent |
| ProfileStoreRuns.AddGroupKeeps | src/db/Database.cpp:784-804 | adding a group keeps it consistent if and only if no profile names the new id already |
| ProfileStoreRuns.DeleteProfilesKeeps | src/db/Database.cpp:828-831 | deleting a list of profiles leaves all others and the running one |
| ProfileStoreRuns.DeleteGroupKeeps | src/db/Database.cpp:825-843 | deleting a group keeps it consistent if and only if the group does not hold the running profile, or nothing is deleted |
| ProfileStoreRuns.EveryRunIsConsistent | src/db/Database.cpp:632-843 | after every sequence of operations the store is consistent and reloading gives it back |
| ProfileStoreRuns.LoadedIsRight | src/db/Database.cpp:302-367 | from rows under the ids of their entities, loading gives lists that enumerate, an index that is right and tabs for all groups, one for each if and only if the saved order names none twice |
| ProfileStoreRuns.OpenedIsConsistent | src/db/Database.cpp:369-403 | start-up gives a consistent store if and only if the saved tab order names no group twice, and a group exists or no profile names group 0 |
| ProfileLists.AddProfileTidy | src/db/Database.cpp:632-658 | adding keeps orders and toggle lists within their groups and without repetition |
| ProfileLists.DeleteProfileTidy | src/db/Database.cpp:676-693 | so does deleting |
| ProfileLists.MoveProfileTidy | src/db/Database.cpp:695-720 | and moving, for both groups; a full order stays full |
| ProfileLists.EveryRunIsTidy | src/db/Database.cpp:632-843 | over every run the lists of a group name profiles of that group, each once; orders go on showing whole groups as long as nothing is added to a group that has one |
| ProfileLists.AddProfilePlaces | src/db/Database.cpp:632-658 | a new profile lands in an existing group, the one asked for or the current one if none was, which then has a toggle profile; all else is as before |
| ProfileLists.MoveProfilePlaces | src/db/Database.cpp:695-720 | a moved profile leaves every list of its group and comes last in a non-empty order of the other; all else is as before |
| ProfileLists.AdditionIsHidden | src/db/Database.cpp:632-658 | an addition is displayed if and only if the group has no order |
| StoreEffects.SaveProfilePlaces | src/db/Database.cpp:660-674 | saving stores the profile as given, in memory and in its row, whether it was known or not; other profiles and rows, groups, tabs, current group and running profile are as before |
| StoreEffects.DeleteProfilePlaces | src/db/Database.cpp:676-693 | the profile and its row are gone and the lists of its group keep the others in order; the running profile stays; all else is as before |
| StoreEffects.AddingLeavesTheRest | src/db/Database.cpp:632-658 | adding a profile writes rows for what it changes and leaves tabs, current group and running profile alone |
| StoreEffects.MovingLeavesTheRest | src/db/Database.cpp:695-720 | so does moving one |
| StoreEffects.AddGroupPlaces | src/db/Database.cpp:784-804 | the new group comes last among ids and tabs, which are saved, and is the current one if and only if there was none |
| StoreEffects.SaveGroupPlaces | src/db/Database.cpp:806-823 | the group is stored as given, in memory and in its row; an unknown one gets a last tab, which is not saved |
| StoreEffects.DeleteGroupPlaces | src/db/Database.cpp:825-843 | its profiles go but the running one, then the group and its tab; the first tab that is left is the current group if and only if the deleted one was; other groups and profiles are as before |
| StoreEffects.OpenedPlaces | src/db/Database.cpp:394-403 | start-up keeps a current group that exists and otherwise takes the first tab; without groups it saves one named Default |
| StoreEffects.TabOrderIs | src/db/Database.cpp:354-365 | the saved tab order without groups that are gone, then the groups it does not name, by id |
| StoreEffects.NewIdsAreNext | src/db/Database.cpp:624-630 | a new id is one more than the greatest, or 0 |
| StoreEffects.ListingIs | src/db/Database.cpp:853-868 | a listing by ids shows the profiles that are there, in that order |
| TabMoves.MergeVisibleGroupOrder | src/ui/mainwindow.cpp:439-455 | the loops weave the visible groups in their new order into the turns that archived groups leave |
| TabMoves.WovenListsAll | src/ui/mainwindow.cpp:439-455 | from an order of all groups an order of all groups comes out if and only if the visible ones are listed each once |
| TabMoves.ArchivedStay | src/ui/mainwindow.cpp:439-455 | archived groups stay where they were |
| StoreEffects.VisibleInNewOrder | src/ui/mainwindow.cpp:439-455 | after a move the visible groups stand in the order that was asked for |
| TabMoves.MoveTabs | src/ui/mainwindow.cpp:635-648 | the woven order becomes the tab order and is saved |
| TabMoves.MoveTabsKeeps | src/ui/mainwindow.cpp:635-648 | the store stays consistent if and only if the window shows each group that is not archived once |
| ProfileFilter.Uniq | src/db/ProfileFilter.cpp:14-32 | of the entities with one key, the first, or the last in its own place |
| ProfileFilter.LastsHold | src/db/ProfileFilter.cpp:14-32 | the last form holds one entity per key, the last that has it |
| ProfileFilter.LastsExtended | src/db/ProfileFilter.cpp:21-26 | a later entity takes the place of the one with its key |
| ProfileFilter.Common | src/db/ProfileFilter.cpp:34-52 | the entities of the second list whose key the first has, each paired with the last such entity of the first |
| ProfileFilter.LastByKeyIs | src/db/ProfileFilter.cpp:41-44 | the map holds the last entity of each key |
| ProfileFilter.OnlyInSrc | src/db/ProfileFilter.cpp:54-68 | the entities whose key the other list lacks, in order |
| ProfileFilter.OnlyInSrcByPointer | src/db/ProfileFilter.cpp:70-76 | the entities the other list does not hold |
| ProfileFilter.FirstsPicks | src/db/ProfileFilter.cpp:14-32 | the first form is exactly the first entity of each key, in their order |
| ProfileFilter.LastsPicks | src/db/ProfileFilter.cpp:14-32 | the last form is exactly the last entity of each key, in their order |
| ProfileFilter.HavingPicks | src/db/ProfileFilter.cpp:46-51 | the entities whose key is asked for, and no others, in their order |
| ProfileFilter.LackingPicks | src/db/ProfileFilter.cpp:54-68 | the entities whose key the other list lacks, and no others, in their order |
| ProfileFilter.ExcludingPicks | src/db/ProfileFilter.cpp:70-76 | the entities the other list does not hold, and no others, in their order |
| SubscriptionUpdate.AddFetched | src/sub/GroupUpdater.cpp:461-471 | the fetched profiles are added one after the other, and listed in that order |
| SubscriptionUpdate.Substitute | src/sub/GroupUpdater.cpp:991-1001 | the fetched order with old ids in place of the ids of their doubles |
| SubscriptionUpdate.CleanUp | src/sub/GroupUpdater.cpp:1004-1009 | profiles whose id is not in the order are deleted |
| SubscriptionUpdate.MergeFetched | src/sub/GroupUpdater.cpp:964-1009 | the comparison, the order and the cleanup, with what is reported |
| SubscriptionUpdate.Update | src/sub/GroupUpdater.cpp:937-1030 | the whole update: no group, archived group, clearing first, or merging |
| SubscriptionMerge.AddedAllIs | src/sub/GroupUpdater.cpp:960-964 | the new profiles get consecutive unused ids; nothing else changes |
| SubscriptionMerge.SubstitutedIs | src/sub/GroupUpdater.cpp:991-1001 | each fetched profile is listed as the last old one with its key, or as itself |
| SubscriptionMerge.CleanedUpIs | src/sub/GroupUpdater.cpp:1004-1009 | what stays of the group is what the order lists and the running profile |
| SubscriptionResults.UpdateMerges | src/sub/GroupUpdater.cpp:974-1017 | the main result on an update: old profiles keep id and contents, others are new, two entries share an id if and only if they share a key the group had, the group is its order and the running profile, other groups are untouched; reported as deleted are those whose key was not fetched, and as added exactly the new ones that the order lists |
| SubscriptionResults.KeysAreTheFetchedOnes | src/sub/GroupUpdater.cpp:974-1009 | the keys of the group are exactly the fetched ones and that of the running profile |
| SubscriptionResults.OldStaysWhen | src/sub/GroupUpdater.cpp:974-1009 | an old profile stays if and only if it is the latest one of a fetched key, or runs |
| SubscriptionResults.DeletionsAreReported | src/sub/GroupUpdater.cpp:978-1017 | the profiles reported as deleted are the ones deleted if and only if each old profile with a fetched key is the latest one with it, or runs, and a running profile of the group has a fetched key |
| SubscriptionResults.RepeatingChangesNothing | src/sub/GroupUpdater.cpp:974-1017 | with the running profile stored, or none, the same update again changes no profile and no order if and only if keys that are fetched twice were there before, and reports nothing if and only if a running profile in the group has a fetched key |
| SubscriptionResults.ClearingReplaces | src/sub/GroupUpdater.cpp:953-972 | with the clear setting the group is the fetched profiles and the running profile; their ids are new to the store that was cleared, and may be ones that were just deleted |
| SubscriptionCases.ClearingRefreshes | src/sub/GroupUpdater.cpp:946-959 | clearing refreshes the data of the group, empties its order and leaves the data of other groups |
| SubscriptionCases.ImportAddsAll | src/sub/GroupUpdater.cpp:961-1030 | without a group all fetched profiles are added to the current group, or to that of the first tab, under the next ids, and counted |
| SubscriptionCases.ArchivedIsLeftAlone | src/sub/GroupUpdater.cpp:846 | an archived group is left alone, and only such a one |
| SubscriptionLists.UpdateKeepsTidy | src/sub/GroupUpdater.cpp:990-1009 | after an update all lists name profiles of their groups, each once, if and only if no two entries are fetched under one key that the group has |
| SubscriptionLists.ClearingKeepsTidy | src/sub/GroupUpdater.cpp:953-972 | an update that clears the group first leaves all lists tidy |
| StoreHistories.EveryHistoryIsConsistent | src/db/Database.cpp:302-843 | after every sequence of store operations, updates of any group and moved tabs the store is consistent and reloading gives it back |
| StoreHistories.EveryHistoryIsTidy | src/sub/GroupUpdater.cpp:937-1030 | and all lists name profiles of their groups, each once, as long as no two entries are fetched under one key that the group has |
| ProfileReorder.NumberProfiles | src/db/Database.cpp:416-434 | each tab and each entry it displays gets the next number; a profile that is met again gets a second row, and names the last one |
| ProfileReorder.NumberGroups | src/db/Database.cpp:436-452 | groups move to their numbers, toggle lists follow, orders are dropped |
| ProfileReorder.Renumber | src/db/Database.cpp:405-486 | maps, lists, index, tables, current group, running and remembered profile after renumbering |
| ReorderResults.ArrangedMeans | src/db/Database.cpp:405-434 | in a tidy store, every group displays itself if and only if each order is empty or full and each profile is in a group of the store |
| ReorderResults.DisplayIsKept | src/db/Database.cpp:416-452 | when none is displayed twice, every tab displays the same profiles in the same order, under consecutive new ids that go on from those of the tabs before it |
| ReorderResults.RenumberedIsConsistent | src/db/Database.cpp:405-486 | the store is consistent after renumbering if and only if no profile is displayed twice |
| ReorderResults.RowsPerProfile | src/db/Database.cpp:416-434 | there is one row for each displayed entry: as many as displayed profiles if and only if none is displayed twice, and those are all profiles if and only if all are displayed |
| ReorderResults.EverythingIsKeptExactly | src/db/Database.cpp:405-486 | every profile is carried over to one place in its own group, and there are no others, if and only if every group displays itself |
| ReorderResults.RenumberingKeepsEverything | src/db/Database.cpp:405-486 | when every group displays itself, renumbering is a bijection onto 0, 1, ... for profiles and groups; toggle lists, current group, running and remembered profile follow, and displays stay |
| ReorderResults.LinksSurviveExactly | src/db/Database.cpp:405-486 | whatever is displayed: front proxies and chains, which are not renumbered, name the same profiles as before if and only if each id they name is that of the profile displayed at this place |
| StoreWitnesses.DeletingTheRunningGroupBreaks | src/db/Database.cpp:825-843 | a run from the first start after which deleting a group makes the store inconsistent |
| StoreWitnesses.AddingAGroupBreaks | src/db/Database.cpp:784-804 | the next start after that, and a group that is added then, with the same effect |
| StoreWitnesses.SavingElsewhereBreaks | src/db/Database.cpp:660-674 | a profile that is saved under another group, with the same effect |
| StoreWitnesses.StartingWithoutGroupsBreaks | src/db/Database.cpp:394-398 | tables without a group from which start-up gives an inconsistent store |
| StoreWitnesses.StartingWithATabTwiceBreaks | src/db/Database.cpp:354-365 | tables with a tab order from which start-up gives an inconsistent store |
| StoreWitnesses.HiddenProfileIsLost | src/db/Database.cpp:405-486 | a run after which renumbering loses a profile |
| StoreWitnesses.FrontProxyChanges | src/db/Database.cpp:405-486 | a run after which renumbering makes another profile the front proxy of a group |
| StoreWitnesses.HiddenFrontIsLost | src/db/Database.cpp:405-486 | a run after which renumbering drops the front proxy of a group |
| StoreWitnesses.RepeatedHeldBecomesTwo | src/db/Database.cpp:425-433 | an update after which renumbering makes two rows of one profile |
| StoreWitnesses.RepeatedNewChangesAgain | src/sub/GroupUpdater.cpp:974-1009 | an update that deletes a profile when it is repeated |
| StoreWitnesses.DeletionIsNotReported | src/sub/GroupUpdater.cpp:978-1017 | an update that deletes a profile and reports nothing |
| WakeCoordination.WakeCoordinator.NoteSleep | src/platform/WakeCoordinator.cpp:17-21 | a sleep ends the run and stores the snapshot for the next wake |
| WakeCoordination.WakeCoordinator.NoteWake | src/platform/WakeCoordinator.cpp:23-37 | a second wake within 120 s without a sleep is refused; an accepted one begins a run |
| WakeCoordination.WakeCoordinator.Step | src/platform/WakeCoordinator.cpp:39-119 | the loop over the phases does what the phase function says; EveryActionComes and EveryAnswerFits tell what that is without phases |
| WakeCoordination.WakeCoordinator.DropRestore | src/platform/WakeCoordinator.cpp:123 | forgets the snapshot; HistoriesAreSafe says what no longer happens then |
| WakeRuns.HistoriesAreConsistent | src/platform/WakeCoordinator.cpp:17-123 | in every history the machine agrees with an observer's record of it |
| WakeRuns.ActionsComeInOrder | src/platform/WakeCoordinator.cpp:39-119 | restart, mode check and update come at most once in a run, in that order |
| WakeRuns.HistoriesAreSafe | src/platform/WakeCoordinator.cpp:17-123 | actions only in unblocked steps within 180 s; a restart only of a core dead for 8 s; an update only on a ready network; neither restart nor mode check after the restore is dropped; wakes under 120 s apart have a sleep between them |
| WakeRuns.DeadFromMeans | src/platform/WakeCoordinator.cpp:69-90 | the time since which the core counts as dead is that of a step of the current run that saw it dead, with no step without a pending start seeing it up since |
| WakeRuns.PendingStartHidesTheCore | src/platform/WakeCoordinator.cpp:69-90 | a history in which a step between them, with a start pending, sees the core up, and the restart comes all the same |
| WakeRuns.RestartFollowsDeath | src/platform/WakeCoordinator.cpp:69-90 | a restart follows a step of the same run that saw the core dead 8 s before, with no step without a pending start seeing it up since; no step at all saw it up for 8 s if and only if each that did is followed by one that saw it dead, 8 s before the restart |
| WakeRuns.RunsEnd | src/platform/WakeCoordinator.cpp:39-119 | a run whose steps wait as long as asked goes on for at most 183 steps |
| WakeWatch.EveryActionComes | src/platform/WakeCoordinator.cpp:17-123 | in every history the actions of the last run are exactly those that its observations call for, and a run that comes to its own end has settled network, core and modes |
| WakeWatch.WhatARunDid | src/platform/WakeCoordinator.cpp:39-119 | a run that comes to its own end has updated subscriptions if and only if the network was found, checked exactly the modes of the snapshot if and only if one was on and a profile ran when that was settled, and restarted exactly the profile of the snapshot if and only if there was one and the core was down when that was settled |
| WakeWatch.EveryAnswerFits | src/platform/WakeCoordinator.cpp:39-119 | every step answers with the action that is due, or with a positive wait of at most 2 s, or with the note of why the run ends |
| WakeRetry.WakeSubscriptionRetry.Begin | src/platform/WakeSubscriptionRetry.cpp:7-13 | the retry starts from nothing |
| WakeRetry.WakeSubscriptionRetry.Step | src/platform/WakeSubscriptionRetry.cpp:15-46 | the step does what the step function says; the delay table is read in range |
| WakeRetry.AtMostFiveAttempts | src/platform/WakeSubscriptionRetry.cpp:26-46 | no history has more than five attempts in a retry |
| WakeRetry.AttemptsAreSpaced | src/platform/WakeSubscriptionRetry.cpp:26-46 | attempt k+1 starts at least the k-th delay of the table after attempt k was seen to end |
| WakeRetry.HistoriesAreSafe | src/platform/WakeSubscriptionRetry.cpp:15-46 | attempts start only when allowed, and any step 600 s after the beginning ends the retry |
| WakeRetry.EveryAttemptComes | src/platform/WakeSubscriptionRetry.cpp:15-46 | in every history an attempt starts exactly when it is due, that is none was made or the last one has ended and its pause is over, while subscriptions are due and nothing stops the retry or is in its way; the other answers, too, from what an observer sees |
| WakeRetry.RetriesEnd | src/platform/WakeSubscriptionRetry.cpp:15-46 | a retry whose steps wait as long as asked goes on for at most 600 steps |
| WakeDriver.MainWindow.WakeOnSleep | src/ui/mainwindow_wake.cpp:51-66 | a sleep stops both timers and the retry |
| WakeDriver.MainWindow.WakeDetected | src/ui/mainwindow_wake.cpp:68-84 | an accepted wake starts the run timer and stops a retry |
| WakeDriver.MainWindow.WakeRunStep | src/ui/mainwindow_wake.cpp:101-162 | one step of the coordinator, its timer, and the start of a retry |
| WakeDriver.MainWindow.WakeSubsStep | src/ui/mainwindow_wake.cpp:164-193 | one step of the retry and its timer |
| WakeDriver.TimersMatchMachines | src/ui/mainwindow_wake.cpp:51-193 | a timer runs exactly while its machine is active |
| WakeDriver.RunStepEffects | src/ui/mainwindow_wake.cpp:101-162 | the run timer is set to what the run asks for, and the retry begins and takes its first step exactly when the run asks for an update |
| WakeDriver.SignalEffects | src/ui/mainwindow_wake.cpp:51-84 | a sleep ends run and retry, an accepted wake ends a retry and starts a run at once, and a wake while exiting is ignored |
| WakeDriver.FiringWaitsAsAsked | src/ui/mainwindow_wake.cpp:101-162 | timers that fire when they are due are calls that wait as long as asked |
| WakeDriver.WindowRunsEnd | src/ui/mainwindow_wake.cpp:68-162 | so every wake run of the window ends |
| Base64.DecodeInto | 3rdparty/base64.cpp:14-79 | status and bytes are those of the input as it was, also in place; nothing past 3n/4 is written |
| Base64.PutDigit | 3rdparty/base64.cpp:65-73 | a digit is taken into the accumulator, and a byte out of it, behind the read index |
| Base64.FromBase64 | 3rdparty/base64.cpp:82-91 | the decoder with a fresh buffer of 3n/4 |
| Base64.AccumulatorKeepsBytes | 3rdparty/base64.cpp:65-73 | the accumulator has written the bytes of the digits so far and holds the bits left over |
| Base64.DecodingUndoesEncoding | 3rdparty/base64.cpp:14-79 | decoding any encoding of RFC 4648, sections 4 and 5, padded or not, strict or not, gives Ok and the bytes |
| Base64.StrictAcceptance | 3rdparty/base64.cpp:41-63 | strict decoding succeeds if and only if the text is digits, or digits and one or two pads of a length divisible by four |
| Base64.StatusIs | 3rdparty/base64.cpp:41-63 | a lenient decoder accepts every text; a strict one that refuses a text says whether it was the character, the length or the padding |
| Base64.AlphabetIsExact | 3rdparty/base64.cpp:27-41 | exactly the 64 characters of the alphabet have values |
| Base64.DigitsOfOne | 3rdparty/base64.cpp:27-65 | a character gives the digit of its value, or none |
| Base64.DigitsJoin | 3rdparty/base64.cpp:60-65 | other characters are passed over wherever they stand |
| Base64.BytesAreTheBits | 3rdparty/base64.cpp:65-73 | for any digits the bytes are their bits, eight at a time, as many as these fill |
| CommandLine.QuoteArgument | src/main/windows_runtime_launcher.cpp:35-67 | the counting loop writes the quoted form |
| CommandLine.BuildForwardedCommandLine | src/main/windows_runtime_launcher.cpp:69-81 | program and arguments quoted and joined by spaces |
| CommandLine.RunEscaped | src/main/windows_runtime_launcher.cpp:48-65 | a splitter inside quotation marks reads back what was escaped |
| CommandLine.SplittingUndoesJoining | src/main/windows_runtime_launcher.cpp:35-81 | splitting the joined line gives back every list of arguments |
| CommandLine.ProgramNameSurvives | src/main/windows_runtime_launcher.cpp:69-81 | the first word, read by its own simpler rule, is the program path if and only if that needed no quotation marks, or only for blanks and does not end in a backslash |
| CommandLine.QuotedWhenNeeded | src/main/windows_runtime_launcher.cpp:35-46 | an argument is left as it is if and only if it is not empty and has no blank, tab or quotation mark |
| WifiMonitoring.ChangeTracker.Apply | src/platform/WifiSsid.cpp:190-209 | a connection without a name counts as none; only definite readings change the SSID; what changed is reported |
| WifiMonitoring.WifiMonitor.SetActive | src/sys/WifiMonitor.cpp:58-67 | activation asks for a reading |
| WifiMonitoring.WifiMonitor.RefreshNow | src/sys/WifiMonitor.cpp:71 | asks for a reading at once |
| WifiMonitoring.WifiMonitor.RequestRead | src/sys/WifiMonitor.cpp:77-90 | starts a read, or asks for another after the one in flight |
| WifiMonitoring.WifiMonitor.OnReadingReady | src/sys/WifiMonitor.cpp:92-106 | takes in a reading and starts the one that was asked for meanwhile |
| WifiMonitoring.EveryStateIsConsistent | src/sys/WifiMonitor.cpp:58-106 | the invariant of every interleaving |
| WifiMonitoring.OneReadAtATime | src/sys/WifiMonitor.cpp:77-106 | at most one read is under way |
| WifiMonitoring.IdleMeansFresh | src/sys/WifiMonitor.cpp:77-106 | whenever the monitor is idle, the last completed read started after the last request |
| WifiMonitoring.ReadsAreAskedFor | src/sys/WifiMonitor.cpp:58-106 | no more reads are made than were asked for, one that is still owed included |
| WifiMonitoring.ActiveIsLastWanted | src/sys/WifiMonitor.cpp:58-69 | the monitor is active exactly when it was last told to be |
| WifiMonitoring.SsidIsLastDefinite | src/sys/WifiMonitor.cpp:92-106 | the tracked and the cached SSID are that of the last definite reading, and consecutive signals differ |
| WifiMonitoring.ReadingSignalsAreChanges | src/platform/WifiSsid.cpp:190-209 | consecutive readings that are signalled differ, and the last one signalled is the last one delivered, connections without a name counting as none |
| WifiMonitoring.UnnamedIsNone | src/platform/WifiSsid.cpp:190-209 | a connection without a name does to the tracker what no connection does |
| JsonMerge.MergeJson | src/db/ConfigBuilder.cpp:44-81 | the loop, which ends on every pair of objects, computes the merge |
| JsonMerge.PlainMerge | src/db/ConfigBuilder.cpp:44-81 | without array keys the merge is entry by entry: objects merge and all else is replaced |
| JsonMerge.LeavesArrive | src/db/ConfigBuilder.cpp:44-81 | every leaf of the source is found at its path |
| JsonMerge.RestIsKept | src/db/ConfigBuilder.cpp:44-81 | every path the source does not touch is as before, or still missing |
| JsonMerge.MergingIsIdempotent | src/db/ConfigBuilder.cpp:44-81 | merging the same source twice is merging it once |
| JsonArrayKeys.ArrayKeyArrives | src/db/ConfigBuilder.cpp:44-81 | for all sources: an array under +t or t+ arrives at t, whatever is in it, if and only if its key fires and t is not visited later; otherwise what stands under t does not depend on it |
| JsonArrayKeys.TargetComesFirst | src/db/ConfigBuilder.cpp:60-76 | t is visited before t+, and before +t unless it begins with a character after the plus sign |
| JsonArrayValues.ArrayKeysExtend | src/db/ConfigBuilder.cpp:50-76 | when no third key writes there, an array under +t or t+ is put before or after the one under t; but an entry under t that is visited later is all that is left |
| JsonArrayValues.ArrayKeysMeet | src/db/ConfigBuilder.cpp:50-76 | when no other key writes there, with both +t and t+ the array under t comes to stand between the two; but that of +t is lost when t is visited after it |
| JsonArrayValues.BeforeKeyIsLost | src/db/ConfigBuilder.cpp:50-76 | a source with arrays under +a and a, of which the first does not arrive |
| ProxyChain.ResolveChain | src/db/ConfigBuilder.cpp:263-284 | the listed proxies from the last to the first, or the first error met on the way |
| ProxyChain.NoErrorInChain | src/db/ConfigBuilder.cpp:267-279 | there is none if and only if every id names a single proxy |
| ProxyContents.ErrorIsOfTheLast | src/db/ConfigBuilder.cpp:267-279 | and otherwise the error is that of the last id that names no profile, or a list |
| ProxyContents.WhenChainsResolve | src/db/ConfigBuilder.cpp:256-301 | a chain is built if and only if the profile is in a group and its list, and that of a front proxy that is set and exists, name single profiles only; which error it is otherwise |
| ProxyChain.BuildStatus.BuildChain | src/db/ConfigBuilder.cpp:256-309 | the errors before anything is built; otherwise the chain of the profile and then of the front proxy, which ChainContents describes |
| ProxyChain.BuildStatus.BuildChainInternal | src/db/ConfigBuilder.cpp:336-547 | the loop, with its skipped profile and its errors, proxy by proxy; ChainContents tells what comes of it |
| ProxyChain.BuildStatus.AddProxy | src/db/ConfigBuilder.cpp:347-544 | one turn of the loop: tag, link from the last proxy, mapping, outbound |
| ProxyPath.TagsAreUnique | src/db/ConfigBuilder.cpp:347-367 | the tags of a chain differ if and only if the ids of the proxies inside it do |
| ProxyPath.OutboundLinks | src/db/ConfigBuilder.cpp:478-527 | custom fields that do not write tag or detour leave the outbound under its tag and without a detour |
| ProxyContents.ChainContents | src/db/ConfigBuilder.cpp:336-547 | the chain has no error if and only if no proxy fails, else that of the first; without one each outbound is the base object of its proxy with the custom fields merged in and the next proxy as detour, mapping inbounds have the ports and addresses of their proxies, and tags to ignore and the VPN flag are those of the proxies |
| ProxyContents.EntriesArrive | src/db/ConfigBuilder.cpp:451-527 | what custom fields do not write stands in the finished outbound: the tag, the strategy of the settings, the multiplex object on the first proxy that wants it and no other, and else the core object entry by entry, or type, server and port of the external program |
| ProxyContents.TagNames | src/db/ConfigBuilder.cpp:347-367 | the tags are proxy, g- and the id for the last one, c-0- and the id for those between |
| ProxyContents.DecimalReads | src/db/ConfigBuilder.cpp:349-361 | ids are written in decimal digits without leading zeros |
| ProxyPath.ChainIsOnePath | src/db/ConfigBuilder.cpp:336-547 | following the result from the returned tag visits every proxy once, in list order, and every rule names an inbound that exists |

## Left out

- QR tables: data capacities, block counts and check lengths per version and level are parameters; a layout is any block
  count, check length and raw length that can be split as the standard's tables can, and the tables are not checked.
- QR function patterns, version bits and the penalty score: the grid of function modules and the penalty are parameters;
  what masking and placement need of them is stated where it is used.
- QR kanji and ECI segments, and the choice of a mode for a text: thin code around what is modelled.
- Correcting errors: that wrong symbols can be told from the check symbols is proved; how a reader finds them is not part
  of the repository.
- Entities as shared objects: profiles and groups are values in the maps of the store, so a caller that changes a stored
  entity without saving it is not modelled; saving an entity is what changes it.
- ProfileStore.ProfileManager.SaveProfile: the summary that is refreshed from the profile's settings is not modelled, and
  the text saved last, to which the new one is compared, is that of the row.
- ProfileStore.ProfileManager.LoadFromSqlite: rows that cannot be parsed, and profiles of unknown type, are taken not to
  be there; the code skips them.
- ProfileStore.ProfileManager.LoadManager: creating the tables and the migration from JSON files are left out.
- SubscriptionUpdate.Update: the returns before anything is changed, when a request fails or gives nothing, are left out.
- ProxyChain.BuildStatus.BuildChain: the traffic statistics of the chain are left out.
- ProxyChain.BuildStatus.AddProxy: the results of external programs, the traffic statistics and the list of names that
  are looked up directly are left out.
- ProfileReorder.Renumber: renumbering is not stated for tables whose tab order names a group twice, which
  `StartingWithATabTwiceBreaks` shows; the group would be numbered, and its toggle list renumbered, twice.
- ProfileReorder.NumberProfiles: its loops ask for a tab order without repetition as well.
- ProfileStoreRuns.EveryRunIsConsistent: saving a group that is not in the store is left out of the runs, since the code
  does not save the tab order then; ids do not overflow.
- Transactions and SQL errors.
- Fetching, decoding and parsing of subscriptions, and the settings their headers carry: the fetched list and the
  refreshed settings of the group are inputs.
- The key by which profiles are compared is a function of their contents.
- WakeDriver.WindowRunsEnd: the clock is assumed not to go back, and a timer not to fire before it is due.
- The notes and texts of the wake steps, the repair of macOS modes, and the restart of the core itself.
- The worker thread of the Wi-Fi monitor and its watcher, whose calls are events of the model; reading the SSID.
- ProxyPath.ChainIsOnePath: proxies inside a chain do not connect by themselves, which is what their kinds answer
  (`src/fmt/Bean2External.cpp` lines 32 to 61); port numbers and the multiplexing decision are inputs.
- The rest of the configuration: DNS, routing rules and inbounds are mostly literal JSON.
- JSON numbers are reals; text, number formats and duplicate keys of JSON are not modelled.
- `LinuxAutostart.cpp` quoting, platform decision tables and the user interface would only add easy members.
