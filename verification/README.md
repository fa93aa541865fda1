# DeviceHub: verified models of its stateful cores

DeviceHub controls iOS devices from a desktop host: it streams their logs, moves files, records captures,
maps keyboard and gamepad input to touches, and draws two toolbars over a fullscreen device view. Most of
it is user interface and device plumbing. This project models the cores that decide something by
themselves and proves what they promise, over every input and every run.

`dafny verify dfyconfig.toml` checks the whole project. One module per component:

| module | models |
|---|---|
| `LogText`, `DeviceLogs` | the bounded, numbered log buffer, its pages and its lag flag |
| `LogDelivery`, `LogsPage` | the polling client of that buffer: first as a state machine whose steps interleave freely with the server, then as the component's own loop, proved to be a run of that machine |
| `TransferSlot` | the transfer slot whose cancellation flag is read without its lock, store by store and load by load |
| `DevicePaths` | path normalisation and joining, in Rust and in TypeScript |
| `KeyMapping` | the validator of key-mapping profiles, against a declarative predicate |
| `MappingDefaults`, `ScrcpyImport`, `Plist`, `PlayCoverImport` | two importers whose output that validator must accept, and the budgeted plist decoder before one of them |
| `ProfileNames`, `MappingEditor` | fresh names for imported profiles; balanced touch contacts for edited ones |
| `ToolbarLayout` | docking of the two toolbars, over real coordinates |
| `OperationRegistry` | the lifecycle of long-running operations |
| `UndoHistory` | the undo reducer, against a timeline with a cursor |
| `CaptureFiles` | crash-safe replacement of capture files, every step of which may fail |
| `Prelude`, `Text`, `Json` | shared helpers |

Where the original updates state in place there is a class or a method with loops, proved equal to a
function of the old state; the theorems are about those functions and about runs of them.

## Where the code does less than one might expect

Each of these is proved; the code is modelled as it is.

- A log refresh that throws after its cursor advanced loses the pages it had read, and the gap indicator
  stays off (`LogDelivery.DroppedEntriesNeverArrive`, `LogDelivery.DroppedPageLeavesSilentGap`; exactly when
  the indicator is right: `LogDelivery.GapIndicatorIsExact`).
- `is_cancelled` can tell a transfer that was never cancelled that it was, when the transfer is overtaken
  between the two loads (`TransferSlot.OvertakenReaderSeesOtherCancel`; exactly when: `TransferSlot.TrueIsRightIff`).
- Normalising a canonical path of 1,024 bytes without its leading slash gives 1,025 bytes, which the same
  function then refuses (`DevicePaths.NormalizedPathCanBeRefused`; exactly when: `DevicePaths.NormalizeRoundTrip`).
- The validator does not see keys under a d-pad's `keys` or under `up_boost_key`, so it accepts a hardware
  binding that clashes with them (`KeyMapping.IgnoredFieldNeverMatters`).
- A PlayCover import can be refused by the validator: for more than 512 mappings
  (`PlayCoverImport.TooManyButtonsAreRefused`), for a bundle id without a dot
  (`PlayCoverImport.UndottedBundleIsRefused`), or, with a bundle id, for a frame above 16,384 (exactly when:
  `PlayCoverImport.ImportedProfileAcceptedIff`).
- A capture that is finished after a write failed half-way replaces the old capture by a torn one and reports
  too small a count (`CaptureFiles.TornCaptureReplacesOld`; exactly when a published capture is whole, and its
  count right: `CaptureFiles.PublishedIsWholeIff`).
- An edit that changes nothing does not extend the merge window of the undo history
  (`UndoHistory.UnchangedEditDoesNotExtendWindow`; exactly when a burst splits: `UndoHistory.BurstIsOneStepIff`).
- The search for a fresh profile name can take one candidate more than there are names in use
  (`ProfileNames.ImportedAgainTakesTwoTries`; exactly when: `ProfileNames.ExtraTryIff`).
- `cancel_all` leaves `stage` as it was, and is the only command to end an operation that way
  (`OperationRegistry.CancelAllEndsEverything`, `OperationRegistry.OnlyCancelAllKeepsStage`).
- A raw `pointer_id` of null passes the scrcpy-mask importer and stays null
  (`ScrcpyImport.NullPointerStaysNull`; exactly when: `ScrcpyImport.NullPointerPassesIff`).

## Model

| member | source | states |
|---|---|---|
| `LogText.Sanitize` | crates/devicehub-core/src/device_logs.rs:164-200 | the character loop of both sanitisers computes `Sanitized`: control characters become single spaces, nothing past the byte limit |
| `LogText.SanitizedIsCanonical` | crates/devicehub-core/src/device_logs.rs:164-200 | stored text is within its byte limit, free of control characters and trimmed, and sanitising it again changes nothing |
| `LogText.CleanIsKept` | crates/devicehub-core/src/device_logs.rs:164-177 | text that is already clean, trimmed and short enough is stored as it is |
| `LogText.ScrubbedKeepsWords` | crates/devicehub-core/src/device_logs.rs:166-175 | of what is taken, no word is lost, split, joined to another or reordered: control characters separate words |
| `LogText.ScrubbedDoublesNoSpace` | crates/devicehub-core/src/device_logs.rs:172-174 | a replaced character adds no second space |
| `LogText.StopsAtLimit` | crates/devicehub-core/src/device_logs.rs:167-169 | the scan stops at the first character that does not fit the byte limit, and not before |
| `LogText.TrimStartRemovesWhiteSpace` | crates/devicehub-core/src/device_logs.rs:176 | trimming the start removes white space and nothing else |
| `LogText.TrimEndRemovesWhiteSpace` | crates/devicehub-core/src/device_logs.rs:176 | trimming the end removes white space and nothing else |
| `LogText.SanitizedIsEmptyIff` | crates/devicehub-core/src/device_logs.rs:164-200 | nothing is left exactly of texts that are white space and control characters |
| `LogText.SanitizedKeepsWords` | crates/devicehub-core/src/device_logs.rs:164-200 | stored text is what was taken, word for word, up to white space at its ends |
| `LogText.MetadataIsIdempotent` | crates/devicehub-core/src/device_logs.rs:179-200 | sanitising optional metadata is idempotent, and the identity on clean values |
| `DeviceLogs.DeviceLogSlot.PublishStructured` | crates/devicehub-core/src/device_logs.rs:83-105 | push, number and evict from the front: the new buffer is `Publish` of the old one |
| `DeviceLogs.PublishStores` | crates/devicehub-core/src/device_logs.rs:83-105 | a blank message is dropped; any other is stored behind the newest 1,999, under the next number, with its time, level and pid, clean, and word for word in message and every metadata field |
| `DeviceLogs.DeviceLogSlot.TakeSnapshot` | crates/devicehub-core/src/device_logs.rs:107-140 | reads a page without changing the buffer; equals `Snapshot` |
| `DeviceLogs.DeviceLogSlot.SetSource` | crates/devicehub-core/src/device_logs.rs:142-147 | changes the source and nothing else |
| `DeviceLogs.DeviceLogSlot.Clear` | crates/devicehub-core/src/device_logs.rs:149-155 | drops the entries and keeps the numbering and the source |
| `DeviceLogs.DeviceLogSlot.ResetAll` | crates/devicehub-core/src/device_logs.rs:157-161 | drops entries and source and keeps the numbering |
| `DeviceLogs.RunRetains` | crates/devicehub-core/src/device_logs.rs:83-162 | after any run of publish, clear, reset and set_source the buffer is exactly the newest stretch of everything ever stored, consecutively numbered, ending at `next_sequence`, at most 2,000 long |
| `DeviceLogs.RunRetainsEnough` | crates/devicehub-core/src/device_logs.rs:102-104 | nothing is evicted early: after any run the buffer holds all that was stored since it was emptied, or the newest 2,000 |
| `DeviceLogs.EmptyingForgets` | crates/devicehub-core/src/device_logs.rs:149-161 | after clear or reset there is nothing to read, and the numbering goes on |
| `DeviceLogs.ApplyRetains` | crates/devicehub-core/src/device_logs.rs:83-162 | each single operation keeps that invariant |
| `DeviceLogs.PublishKeepsNumbering` | crates/devicehub-core/src/device_logs.rs:89-90 | publishing keeps the numbers consecutive iff the counter is not saturated (or the text is blank, or the buffer empty) |
| `DeviceLogs.SnapshotIsPage` | crates/devicehub-core/src/device_logs.rs:112-136 | a page is the first `limit` (clamped to 1..500) retained entries above the cursor, by filtering, and `has_more` holds iff others remain |
| `DeviceLogs.LimitsOfPages` | crates/devicehub-core/src/device_logs.rs:109 | limits from 1 to 500 are taken as they are, others give the nearer end |
| `DeviceLogs.LagFlagIsExact` | crates/devicehub-core/src/device_logs.rs:128-130 | on a non-empty buffer `cursor_lagged` holds iff some issued sequence between cursor and oldest entry was lost; never on an empty one |
| `DeviceLogs.SnapshotBounds` | crates/devicehub-core/src/device_logs.rs:110-111 | the reported bounds are the lowest and highest retained sequence |
| `DeviceLogs.SnapshotIsTail` | crates/devicehub-core/src/device_logs.rs:119-136 | without a cursor the newest `limit` entries are returned, never flagged |
| `DeviceLogs.AboveIsSuffix` | crates/devicehub-core/src/device_logs.rs:113-117 | the position search finds the entries above the cursor that filtering finds |
| `DeviceLogs.FieldsAreStoredInPlace` | crates/devicehub-core/src/device_logs.rs:91-101 | every metadata field is stored clean; one that was clean already comes back unchanged in its own place, whatever the others are |
| `DeviceLogs.FieldsKeepWords` | crates/devicehub-core/src/device_logs.rs:91-101 | every metadata field is stored word for word, and dropped exactly when absent or blank |
| `LogDelivery.StepKeepsInv` | src/components/DeviceLogsPage.tsx:94-165 | every step of server, request, answer, commit, dropped refresh and clear keeps the invariant |
| `LogDelivery.RunKeepsInv` | src/components/DeviceLogsPage.tsx:94-165 | the invariant holds in every reachable state of every interleaving |
| `LogDelivery.ReceivedIsFaithful` | src/components/DeviceLogsPage.tsx:111-127 | in every run, dropped refreshes included, what the client committed is strictly increasing, free of duplicates and unaltered, and it shows the newest 2,000 of it |
| `LogDelivery.GapIndicatorIsExact` | src/components/DeviceLogsPage.tsx:110-131 | exactly when the gap indicator is right, in every run: never lit falsely, and wrong iff it is off and something was committed after a page taken in was dropped |
| `LogDelivery.RunKeepsDropInv` | src/components/DeviceLogsPage.tsx:110-131 | over every run, cursor, jumps and lag flags are accounted for by the drops since the last clear |
| `LogDelivery.PageJumpIffLaggedOrAhead` | src/components/DeviceLogsPage.tsx:102-120 | page by page: a jump between the last entry taken and the next page occurs iff that page is flagged `cursor_lagged` or the cursor has run ahead; unless a page was dropped, iff it is flagged |
| `LogDelivery.NothingMissingIff` | src/components/DeviceLogsPage.tsx:94-131 | the committed log is one unbroken stretch of what the server stored iff no gap is shown and nothing was committed after a drop |
| `LogDelivery.ReceiveTakesPage` | src/components/DeviceLogsPage.tsx:110-127 | what one answered page does to cursor, received entries and log |
| `LogDelivery.SnapshotAnswers` | crates/devicehub-core/src/device_logs.rs:107-140 | what a snapshot guarantees a client, whenever the server takes it |
| `LogDelivery.UndisturbedRefreshCatchesUp` | src/components/DeviceLogsPage.tsx:102-128 | four pages of 500 drain a full buffer: left alone, a refresh commits everything from its start on and ends with the cursor at the newest entry |
| `LogDelivery.FourPagesAtMost` | src/components/DeviceLogsPage.tsx:102-120 | in no run does a refresh ask for a fifth page |
| `LogDelivery.DroppedEntriesNeverArrive` | src/components/DeviceLogsPage.tsx:110-131 | entries of a refresh that is dropped after the cursor advanced never reach the log, until the page is cleared |
| `LogDelivery.DroppedPageLeavesSilentGap` | src/components/DeviceLogsPage.tsx:110-131 | a concrete run in which such a loss shows as a jump in the log and the gap indicator stays off |
| `LogsPage.DeviceLogsPage.Interfere` | src/components/DeviceLogsPage.tsx:107-109 | what others, and clears of this page, do while a request is pending |
| `LogsPage.DeviceLogsPage.Request` | src/components/DeviceLogsPage.tsx:103-109 | one request: the answer is a snapshot for the cursor it was sent with |
| `LogsPage.DeviceLogsPage.TakePage` | src/components/DeviceLogsPage.tsx:110-118 | the loop body: an answer of an old generation is ignored, else cursor, `received` and the lag flag advance |
| `LogsPage.DeviceLogsPage.Settle` | src/components/DeviceLogsPage.tsx:121-128 | the commit of a refresh |
| `LogsPage.DeviceLogsPage.Abandon` | src/components/DeviceLogsPage.tsx:129-134 | a refresh that throws or is disposed: what it received is gone, the cursor stays |
| `LogsPage.DeviceLogsPage.RefreshPages` | src/components/DeviceLogsPage.tsx:94-134 | the page loop with its refs, server activity and clears during every await, and a request that may throw or be disposed: exactly a run of the state machine |
| `LogsPage.DeviceLogsPage.ClearLocally` | src/components/DeviceLogsPage.tsx:158-161 | the local half of a clear |
| `LogsPage.DeviceLogsPage.Clear` | src/components/DeviceLogsPage.tsx:154-165 | the server half, anything that happens while it is awaited, and the local half unless the request failed |
| `LogsPage.RefreshIsRun` | src/components/DeviceLogsPage.tsx:94-128 | a refresh whose pages all succeed is a `Drop`-free run, so every theorem about runs applies |
| `TransferSlot.DeviceFileActivitySlot.StartTransfer` | crates/devicehub-core/src/storage.rs:191-207 | clears the flag, activates the next id, publishes a fresh running view |
| `TransferSlot.DeviceFileActivitySlot.Update` | crates/devicehub-core/src/storage.rs:209-219 | only the running transfer of that id is changed, and only its three counters |
| `TransferSlot.DeviceFileActivitySlot.SetTotal` | crates/devicehub-core/src/storage.rs:221-229 | only the running transfer of that id is changed, and only its total |
| `TransferSlot.DeviceFileActivitySlot.FinishTransfer` | crates/devicehub-core/src/storage.rs:231-255 | outcome, bytes and error by result; a stale or repeated finish changes nothing |
| `TransferSlot.CancellationIff` | crates/devicehub-core/src/storage.rs:239-253 | an error counts as a cancellation exactly when the cancellation text occurs in it |
| `TransferSlot.FollowingIds` | crates/devicehub-core/src/storage.rs:196 | ids go up by one, and from the largest back to 1 |
| `TransferSlot.DeviceFileActivitySlot.CancelTransfer` | crates/devicehub-core/src/storage.rs:264-274 | raises the flag iff a transfer is running, and says so |
| `TransferSlot.DeviceFileActivitySlot.ResetSlot` | crates/devicehub-core/src/storage.rs:280-288 | back to the default view; numbering starts again |
| `TransferSlot.RunKeepsInv` | crates/devicehub-core/src/storage.rs:183-289 | with every store and both unlocked loads as separate steps, the invariant holds in every reachable state |
| `TransferSlot.TrueMeansCancelledSinceStart` | crates/devicehub-core/src/storage.rs:276-278 | `is_cancelled(id)` is true only if some cancel stored its flag after every clear of the flag by `start(id)` |
| `TransferSlot.TrueIsRightIff` | crates/devicehub-core/src/storage.rs:276-278 | exactly when a true answer is right: by number, iff id was activated last before the second load; by transfer, iff none was activated between the loads |
| `TransferSlot.TrueIsRightUnlessOvertaken` | crates/devicehub-core/src/storage.rs:276-278 | no activation between the loads means that the answer is aimed at id, a finish notwithstanding |
| `TransferSlot.FlagTargetsLastActivated` | crates/devicehub-core/src/storage.rs:191-288 | a raised flag is aimed at the transfer activated last |
| `TransferSlot.CancelIsSeen` | crates/devicehub-core/src/storage.rs:264-278 | once a cancel hit id, and no start, finish or reset has stored anything since, the answer is true |
| `TransferSlot.FalseIsCurrent` | crates/devicehub-core/src/storage.rs:276-278 | a false answer is right at one of its two loads |
| `TransferSlot.FlagIsAimed` | crates/devicehub-core/src/storage.rs:191-207 | while a transfer is active, a raised flag is aimed at that transfer |
| `TransferSlot.OvertakenReaderSeesOtherCancel` | crates/devicehub-core/src/storage.rs:276-278 | a concrete run in which a transfer that was never cancelled is told true |
| `DevicePaths.NormalizeIs` | crates/devicehub-core/src/storage.rs:69-106 | exactly which paths are accepted, each error case, and that the answer is the canonical spelling of the same components |
| `DevicePaths.NormalizeAcceptsIff` | crates/devicehub-core/src/storage.rs:69-106 | which paths are accepted in plain terms: 1,024 bytes, no NUL or backslash, only usable components |
| `DevicePaths.NameIff` | crates/devicehub-core/src/storage.rs:95-106 | which names are accepted |
| `DevicePaths.ComponentsOfSlashed` | crates/devicehub-core/src/storage.rs:79-82 | components are the non-empty stretches between slashes |
| `DevicePaths.NormalizeRoundTrip` | crates/devicehub-core/src/storage.rs:69-93 | same components; re-normalising gives the same path iff it fits 1,024 bytes, and it fails to exactly for a canonical path of 1,024 bytes that lacks its leading slash |
| `DevicePaths.NormalizedPathCanBeRefused` | crates/devicehub-core/src/storage.rs:76-92 | a concrete path whose normal form is refused |
| `DevicePaths.CanonicalLength` | crates/devicehub-core/src/storage.rs:76-92 | the canonical spelling is at most one byte longer than the input, and then only by the leading slash |
| `DevicePaths.JoinAppendsComponent` | crates/devicehub-core/src/storage.rs:45-119 | joining onto a normalised directory succeeds iff name and length are valid, appends one component, and `parentPath` undoes it |
| `DevicePaths.ComponentsOfJoin` | crates/devicehub-core/src/storage.rs:92 | joining components and splitting them again gives them back |
| `DevicePaths.ParentOfCanonical` | src/components/DeviceFilesPane.tsx:49-53 | `parentPath` drops exactly the last component |
| `DevicePaths.ImplementationsAgree` | src/afcBrowser.ts:14-23 | the TypeScript normaliser agrees with the Rust one on every input |
| `KeyMapping.ValidateProfile` | crates/devicehub-core/src/key_mapping.rs:59-118 | returns Ok iff the declarative predicate `Accepted` holds, early returns and insert-while-testing loops notwithstanding |
| `KeyMapping.CheckHeader` | crates/devicehub-core/src/key_mapping.rs:62-79 | version, name, counts, resolution bounds and exactly the seven hardware names |
| `KeyMapping.CheckBundles` | crates/devicehub-core/src/key_mapping.rs:80-85 | bundle ids are valid and pairwise distinct |
| `KeyMapping.CheckMappings` | crates/devicehub-core/src/key_mapping.rs:86-100 | every mapping is valid and ids are pairwise distinct |
| `KeyMapping.CheckMapping` | crates/devicehub-core/src/key_mapping.rs:88-96 | the checks of one mapping |
| `KeyMapping.PositionIff` | crates/devicehub-core/src/key_mapping.rs:143-154 | a position is an object with two numbers from 0 to 1 |
| `KeyMapping.EveryPlaceIsChecked` | crates/devicehub-core/src/key_mapping.rs:155-168 | replacing position, center, x or y of a valid mapping keeps it valid iff the replacement is valid |
| `KeyMapping.EveryListedPlaceIsChecked` | crates/devicehub-core/src/key_mapping.rs:169-180 | so for each listed position and each item |
| `KeyMapping.HeadsAreChecked` | crates/devicehub-core/src/key_mapping.rs:91-96 | id and type must be there, and be a non-empty text and a known type |
| `KeyMapping.MappingTypesAre` | crates/devicehub-core/src/key_mapping.rs:120-140 | the sixteen known types |
| `KeyMapping.BundleIdIff` | crates/devicehub-core/src/storage.rs:15-29 | bundle ids are two or more labels joined by dots, 255 bytes in all |
| `KeyMapping.HardwareKeyIff` | crates/devicehub-core/src/key_mapping.rs:107-110 | hardware keys are at most 64 letters and digits |
| `KeyMapping.ProfileNameIff` | crates/devicehub-core/src/key_mapping.rs:47-57 | profile names are 1 to 80 letters, digits, dashes and underscores |
| `KeyMapping.CollectMappingKeys` | crates/devicehub-core/src/key_mapping.rs:183-204 | the recursive collection adds exactly the bound keys of the value |
| `KeyMapping.BoundKeysAreReachable` | crates/devicehub-core/src/key_mapping.rs:183-204 | bound keys are exactly the non-empty strings at the end of a chain of array elements and binding-named fields |
| `KeyMapping.BindingFieldsAre` | crates/devicehub-core/src/key_mapping.rs:190-193 | the names that lead to bindings |
| `KeyMapping.OtherFieldsAreIgnored` | crates/devicehub-core/src/key_mapping.rs:188-197 | a field without a binding name, such as `keys` or `up_boost_key`, never changes the bound keys |
| `KeyMapping.IgnoredFieldNeverMatters` | crates/devicehub-core/src/key_mapping.rs:59-118 | such a field never changes the verdict on any profile, whatever its keys clash with |
| `KeyMapping.CheckHardware` | crates/devicehub-core/src/key_mapping.rs:105-116 | hardware keys are well formed, unset or bound by no mapping and to no second button |
| `KeyMapping.HardwareNamesCount` | crates/devicehub-core/src/key_mapping.rs:65-76 | a count of seven and containing each name means exactly the seven names |
| `MappingDefaults.CreatedPlaces` | src/types.ts:561-583 | a new mapping of any type has its id and type, sits at its position, and all its places lie in the frame |
| `MappingDefaults.PlacesOfNew` | src/types.ts:571-574 | where the places of new mappings are |
| `MappingDefaults.ReachesScale` | src/types.ts:573-575 | reaches are fractions of the shorter side of the frame |
| `MappingDefaults.DefaultHardwareAccepted` | src/types.ts:648-651 | the default hardware bindings pass the validator beside any mappings |
| `ScrcpyImport.ImportScrcpyMaskConfig` | src/scrcpyCompat.ts:140-162 | the import loop with its id set: which profile results, and imported + skipped is the input length |
| `ScrcpyImport.ImportIsComplete` | src/scrcpyCompat.ts:149-160 | the imported mappings are exactly the importable ones in order, the first of each id, up to 512 |
| `ScrcpyImport.FirstsAreTaken` | src/scrcpyCompat.ts:149-160 | element by element: what has been taken, and which ids |
| `ScrcpyImport.ReadConfigIff` | src/scrcpyCompat.ts:141-145 | which configurations are read |
| `ScrcpyImport.ImportedProfileIsAccepted` | src/scrcpyCompat.ts:140-162 | whatever the configuration, the validator accepts the imported profile iff it was given a name |
| `ScrcpyImport.ImportedAreAccepted` | src/scrcpyCompat.ts:149-160 | imported mappings are all valid, have distinct ids and number at most 512 |
| `ScrcpyImport.ImportedIsMapping` | src/scrcpyCompat.ts:69-138 | a mapping that the importer lets through passes every check of the validator |
| `ScrcpyImport.OnlyRewritten` | src/scrcpyCompat.ts:84-129 | only the six rewritten fields can differ from defaults merged with the original |
| `ScrcpyImport.RewrittenPlaces` | src/scrcpyCompat.ts:94-119 | center, positions and items of an imported mapping are valid, wherever they come from |
| `ScrcpyImport.RewrittenAreScaled` | src/scrcpyCompat.ts:94-119 | each place is the original one in units of the frame, in order, with counts in bounds |
| `ScrcpyImport.RewrittenBindings` | src/scrcpyCompat.ts:84-129 | which conversion each binding went through |
| `ScrcpyImport.DirectionsStayApart` | src/scrcpyCompat.ts:54-67 | each direction of a button pad is bound to its own keys; the rest is unchanged |
| `ScrcpyImport.BindingIsAllOrNothing` | src/scrcpyCompat.ts:30-36 | a binding is imported whole, element by element, or refused |
| `ScrcpyImport.BindingArrayIff` | src/scrcpyCompat.ts:30-36 | a binding is an array whose keys all convert to 1 to 64 letters and digits |
| `ScrcpyImport.DirectionBindingIff` | src/scrcpyCompat.ts:54-67 | which direction bindings are taken |
| `ScrcpyImport.PrefixesAreRewritten` | src/scrcpyCompat.ts:24-26 | prefixes of mouse and gamepad keys are rewritten, whatever follows |
| `ScrcpyImport.OtherKeysAreKept` | src/scrcpyCompat.ts:22-27 | other keys are kept, unless every object inherits a field of that name |
| `ScrcpyImport.NumberedAxisIff` | src/scrcpyCompat.ts:41-42 | the numbered axes are those below 32 |
| `ScrcpyImport.PointScalesBack` | src/scrcpyCompat.ts:45-52 | a pixel is taken iff it is inside the frame, and scales back to itself |
| `ScrcpyImport.ImportedKeepsFields` | src/scrcpyCompat.ts:73-83 | type, position, a usable id and every field that is not rewritten come through |
| `ScrcpyImport.ImportedContactsAreValid` | src/scrcpyCompat.ts:74-136 | a given pointer id is null or one of five contacts; a dual Fps mapping names a second, different one |
| `ScrcpyImport.ImportedIff` | src/scrcpyCompat.ts:69-138 | exactly which mappings are let through: independent checks of type, position, contact and each rewritten field |
| `ScrcpyImport.StepsPassIff` | src/scrcpyCompat.ts:84-129 | what each rewritten field must be for the mapping to be let through |
| `ScrcpyImport.ImportableTypes` | src/scrcpyCompat.ts:70 | the thirteen importable types |
| `ScrcpyImport.FpsAcceptedIff` | src/scrcpyCompat.ts:130-136 | an Fps mapping touches with one contact, or with two different ones |
| `ScrcpyImport.TapItemsIff` | src/scrcpyCompat.ts:102-112 | which tap items are taken |
| `ScrcpyImport.MissingFieldsAreDefaults` | src/scrcpyCompat.ts:77-83 | what a mapping does not bring comes from the defaults of its type |
| `ScrcpyImport.MissingPlacesAreDefaults` | src/scrcpyCompat.ts:77-119 | so do the places it does not bring |
| `ScrcpyImport.GivenPointerIsContactUnlessNull` | src/scrcpyCompat.ts:74-76 | a given pointer id comes through unchanged, and is a contact iff it is not null |
| `ScrcpyImport.NullPointerPassesIff` | src/scrcpyCompat.ts:74-76 | a null pointer id is let through, and stays null, iff the mapping would be imported without it and its type has a contact |
| `ScrcpyImport.NullPointerStaysNull` | src/scrcpyCompat.ts:74-76 | a concrete mapping whose null pointer id stays null |
| `Plist.PlistValue` | src/playCoverCompat.ts:61-100 | succeeds iff the tree is well formed, its value nodes fit the remaining budget of 10,000 and its deepest value lies at depth at most 16; then the value is its meaning and the counter has grown by exactly its size |
| `Plist.ArrayValue` | src/playCoverCompat.ts:79-83 | the same for an array and its elements in order |
| `Plist.DictValue` | src/playCoverCompat.ts:84-98 | the same for alternating keys and values, later keys winning |
| `Plist.LeafMeans` | src/playCoverCompat.ts:66-78 | what texts, reals and truth values mean |
| `Plist.IntegerMeans` | src/playCoverCompat.ts:67-71 | integers are the whole numbers within 2^53 - 1 |
| `Plist.ArrayMeans` | src/playCoverCompat.ts:79-83 | an array means the array of the meanings of its elements |
| `Plist.DictIsWellFormedIff` | src/playCoverCompat.ts:84-96 | safe keys and well-formed values alternate |
| `Plist.DictMeans` | src/playCoverCompat.ts:84-98 | each key maps to the meaning of the value behind its last occurrence |
| `Plist.TextIsFirst` | src/playCoverCompat.ts:56-59 | the text of a node is its first text child |
| `Plist.NamedConcat` | src/playCoverCompat.ts:80-85 | filtering keeps the elements, in order |
| `Plist.FlatArrayFitsIff` | src/playCoverCompat.ts:62-63 | an array of n leaves fits iff n is at most 9,999 |
| `Plist.NestedFitsIff` | src/playCoverCompat.ts:62-63 | a value inside n arrays fits iff n is at most 16 |
| `Plist.KidsFitStep` | src/playCoverCompat.ts:61-63 | the threaded counter: n + 1 children fit iff n do and the next fits what they leave |
| `Plist.FitsIff` | src/playCoverCompat.ts:61-99 | a node fits iff it is sound by itself and its children fit one after another |
| `PlayCoverImport.ImportPlayCoverConfig` | src/playCoverCompat.ts:151-251 | which profile results; imported + skipped is the total model count |
| `PlayCoverImport.AddModels` | src/playCoverCompat.ts:172-231 | one category: shared `skipped` and `pointer` counters stay in step with the mappings |
| `PlayCoverImport.ImportGoesRound` | src/playCoverCompat.ts:170-171 | over all categories the i-th imported mapping gets contact i mod 5 |
| `PlayCoverImport.ImportedStaysBalanced` | src/playCoverCompat.ts:170-231 | an imported profile uses its contacts evenly and stays so under any run of editor edits |
| `PlayCoverImport.MappingIsValid` | src/playCoverCompat.ts:172-231 | every imported mapping passes the validator, under its own id |
| `PlayCoverImport.ModelKeepsPlace` | src/playCoverCompat.ts:181-203 | a model keeps its place and key; a drag is centred there with a radius in bounds |
| `PlayCoverImport.PositionIff` | src/playCoverCompat.ts:128-134 | which models have a place, and which |
| `PlayCoverImport.BindingIff` | src/playCoverCompat.ts:141-144 | which usages give a key |
| `PlayCoverImport.RadiusIs` | src/playCoverCompat.ts:146-149 | the radius is the size as a 200th of the shorter side, clamped |
| `PlayCoverImport.OtherFieldsAreDefaults` | src/playCoverCompat.ts:182-230 | all other fields are those of a new mapping of the type |
| `PlayCoverImport.StickKeysStayApart` | src/playCoverCompat.ts:209-231 | each direction of a joystick leads to the key of its own usage |
| `PlayCoverImport.IdsAreInjective` | src/playCoverCompat.ts:186-224 | ids tell category and index apart |
| `PlayCoverImport.ImportedAreAccepted` | src/playCoverCompat.ts:206-231 | all imported mappings are valid with distinct ids |
| `PlayCoverImport.ImportedIffImportable` | src/playCoverCompat.ts:172-231 | a model is imported iff it is an object with a place in the frame and a known key for each of its codes, wherever it stands |
| `PlayCoverImport.ImportedCount` | src/playCoverCompat.ts:168-231 | the number of imported mappings is the number of such models |
| `PlayCoverImport.CategoryInOrder` | src/playCoverCompat.ts:172-231 | within a category the k-th importable model gives the k-th mapping |
| `PlayCoverImport.CategoriesInOrder` | src/playCoverCompat.ts:206-231 | buttons come first, then drags, then joysticks |
| `PlayCoverImport.ReadConfigIff` | src/playCoverCompat.ts:157-166 | which configurations are read |
| `PlayCoverImport.ReadBundleIff` | src/playCoverCompat.ts:234-238 | which bundle ids are kept |
| `PlayCoverImport.ProfileIs` | src/playCoverCompat.ts:239-250 | a profile holds its bundle id together with the frame, or neither |
| `PlayCoverImport.ImportedProfileAcceptedIff` | src/playCoverCompat.ts:234-247 | the validator accepts the profile iff it has a name, the configuration at most 512 importable models and, with a bundle id, a valid one and a frame within 16,384 |
| `PlayCoverImport.TooManyButtonsAreRefused` | src/playCoverCompat.ts:165-248 | 513 buttons are imported and refused by the validator |
| `PlayCoverImport.UndottedBundleIsRefused` | src/playCoverCompat.ts:234-247 | a configuration whose bundle id has no dot is imported and refused by the validator |
| `ToolbarLayout.NearestFullscreenToolbarDock` | src/fullscreenToolbarLayout.ts:50-74 | the loop over three best-so-far variables finds the specified dock |
| `ToolbarLayout.NearestDock` | src/fullscreenToolbarLayout.ts:50-74 | the specified dock: first of least overlap, then least distance, among those not excluded |
| `ToolbarLayout.NearestComesFirst` | src/fullscreenToolbarLayout.ts:57-73 | the chosen dock against any other: less overlap, or as much and closer, or as close and earlier |
| `ToolbarLayout.CenterIsMiddle` | src/fullscreenToolbarLayout.ts:62-64 | distances are measured from the middle of a toolbar |
| `ToolbarLayout.DistanceIsEuclidean` | src/fullscreenToolbarLayout.ts:66 | squared distances obey Pythagoras |
| `ToolbarLayout.TotalOverlapAdds` | src/fullscreenToolbarLayout.ts:65 | overlap with several rectangles adds up |
| `ToolbarLayout.NearestIsUnique` | src/fullscreenToolbarLayout.ts:57-73 | ties are broken to one dock only |
| `ToolbarLayout.StillNearest` | src/fullscreenToolbarLayout.ts:207-221 | the nearest dock to a point is also the nearest to its own center |
| `ToolbarLayout.SameDockOverlap` | src/fullscreenToolbarLayout.ts:27-48 | two toolbars at one dock overlap in exactly the smaller width times the smaller height, for every container |
| `ToolbarLayout.OverlapAtMostSameDock` | src/fullscreenToolbarLayout.ts:84-88 | no placement overlaps more than sharing a dock |
| `ToolbarLayout.OverlapIffCommonPoint` | src/fullscreenToolbarLayout.ts:84-88 | the overlap area is positive iff some point is strictly inside both |
| `ToolbarLayout.DockTouchesItsEdges` | src/fullscreenToolbarLayout.ts:27-48 | which edges a dock touches, its margins, and that a toolbar that fits stays inside |
| `ToolbarLayout.DropSeparatesDocks` | src/fullscreenToolbarLayout.ts:167-196 | a drop never leaves both toolbars at one dock |
| `ToolbarLayout.DropGoesToNearest` | src/fullscreenToolbarLayout.ts:167-196 | the dropped toolbar gets the nearest dock; the other is then reconciled with it |
| `ToolbarLayout.ReconcileGoesToNearest` | src/fullscreenToolbarLayout.ts:198-222 | without an overlap the docks stay; with one the function toolbar gets the dock nearest to its own center, the first of those of least overlap |
| `ToolbarLayout.ReconcileSeparatesDocks` | src/fullscreenToolbarLayout.ts:198-222 | reconciling leaves the hardware dock alone and the docks different |
| `ToolbarLayout.ReconcileIsIdempotent` | src/components/DeviceFullscreenToolbar.tsx:153-161 | reconciling again changes nothing, ties and coinciding docks included: the resize observer settles in one step |
| `ToolbarLayout.ReconcileMinimisesOverlap` | src/fullscreenToolbarLayout.ts:198-222 | the result overlaps no more than any choice of function dock, so never more than before |
| `ToolbarLayout.ReconcileSeparatesIffPossible` | src/fullscreenToolbarLayout.ts:198-222 | the toolbars end up disjoint iff some dock other than the hardware's allows it |
| `ToolbarLayout.AttachedKeepGap` | src/fullscreenToolbarLayout.ts:100-153 | attached toolbars are exactly `gap` apart and never overlap |
| `ToolbarLayout.AttachedSideBySide` | src/fullscreenToolbarLayout.ts:112-126 | where attached toolbars are side by side |
| `ToolbarLayout.AttachedStacked` | src/fullscreenToolbarLayout.ts:128-152 | and where stacked |
| `OperationRegistry.ManagedOperationRegistry.BeginOperation` | crates/devicehub-core/src/operation.rs:146-192 | same-kind check, eviction loop and append: equals `Begin` |
| `OperationRegistry.ManagedOperationRegistry.EvictFinished` | crates/devicehub-core/src/operation.rs:163-175 | the eviction loop |
| `OperationRegistry.ManagedOperationRegistry.Change` | crates/devicehub-core/src/operation.rs:295-305 | finds the active operation of an id and changes it alone |
| `OperationRegistry.ManagedOperationRegistry.Update` | crates/devicehub-core/src/operation.rs:194-200 | stage and clamped progress |
| `OperationRegistry.ManagedOperationRegistry.RequestCancel` | crates/devicehub-core/src/operation.rs:202-211 | cancelling iff cancellable, and says so |
| `OperationRegistry.ManagedOperationRegistry.RejectCancel` | crates/devicehub-core/src/operation.rs:215-226 | back to running iff cancelling, and says so |
| `OperationRegistry.ManagedOperationRegistry.FinishOperation` | crates/devicehub-core/src/operation.rs:307-316 | the terminal transition |
| `OperationRegistry.ManagedOperationRegistry.CancelEverything` | crates/devicehub-core/src/operation.rs:247-261 | cancels every active operation in place |
| `OperationRegistry.ManagedOperationRegistry.Snapshot` | crates/devicehub-core/src/operation.rs:263-272 | newest first |
| `OperationRegistry.ManagedOperationRegistry.Summarize` | crates/devicehub-core/src/operation.rs:274-293 | active and failed counts and the latest update |
| `OperationRegistry.RunKeepsInv` | crates/devicehub-core/src/operation.rs:146-316 | in every reachable state: at most 32 retained, ids strictly increasing, one active operation per kind, and phase, progress, error and cancellable agree |
| `OperationRegistry.AtMostThirteenActive` | crates/devicehub-core/src/operation.rs:14-28 | one active operation per kind means at most 13, by pigeonhole |
| `OperationRegistry.RoomCanBeMade` | crates/devicehub-core/src/operation.rs:163-175 | room is always found, by evicting only the oldest finished operation |
| `OperationRegistry.BeginFailsIffKindActive` | crates/devicehub-core/src/operation.rs:146-175 | `begin` fails iff an operation of that kind is active; "too many" is unreachable |
| `OperationRegistry.BeginAddsRunning` | crates/devicehub-core/src/operation.rs:176-191 | a successful begin adds one running operation under an id never retained before |
| `OperationRegistry.BegunOperation` | crates/devicehub-core/src/operation.rs:176-191 | a new operation holds what `begin` was given, is running, and has no stage, progress or error |
| `OperationRegistry.CancelAfterBegin` | crates/devicehub-core/src/operation.rs:186-211 | asked to cancel it becomes cancelling iff it was begun as cancellable |
| `OperationRegistry.BeginForgetsOldestEnded` | crates/devicehub-core/src/operation.rs:153-175 | a begin is refused as busy, and forgets nothing but, of 32 operations, the oldest that has ended |
| `OperationRegistry.UpdateStores` | crates/devicehub-core/src/operation.rs:194-200 | an update stores stage, clamped progress and time, and nothing else changes |
| `OperationRegistry.StaleCommandsChangeNothing` | crates/devicehub-core/src/operation.rs:194-305 | commands for an id that is not active change nothing |
| `OperationRegistry.ActiveIsNeverEvicted` | crates/devicehub-core/src/operation.rs:163-175 | over any run an operation stays retained until after a moment at which it was terminal |
| `OperationRegistry.FirstTerminalWins` | crates/devicehub-core/src/operation.rs:295-316 | over any run the first terminal state is final while retained |
| `OperationRegistry.CommandsEndOperations` | crates/devicehub-core/src/operation.rs:228-245 | succeed, cancel and fail end the operation as asked and touch no other |
| `OperationRegistry.EndingsStore` | crates/devicehub-core/src/operation.rs:228-245 | the whole of what succeed, cancel and fail write |
| `OperationRegistry.CancelAllStores` | crates/devicehub-core/src/operation.rs:247-261 | and what `cancel_all` writes |
| `OperationRegistry.CountsAreNumbers` | crates/devicehub-core/src/operation.rs:274-293 | the summary counts are the numbers of active and failed operations |
| `OperationRegistry.RefusedCancelRestores` | crates/devicehub-core/src/operation.rs:202-226 | a refused cancel request restores the operation, up to the clock |
| `OperationRegistry.CancelAllEndsEverything` | crates/devicehub-core/src/operation.rs:247-261 | afterwards nothing is active; `stage` and finished operations are as they were |
| `OperationRegistry.OnlyCancelAllKeepsStage` | crates/devicehub-core/src/operation.rs:194-316 | no other command ends an operation without clearing its stage |
| `OperationRegistry.StageMeansCancelAll` | crates/devicehub-core/src/operation.rs:194-316 | an ended operation that still shows a stage occurs only in runs with a `cancel_all` |
| `UndoHistory.ReduceRefinesTimeline` | src/useUndoHistory.ts:24-69 | the reducer refines a timeline with a cursor, action by action |
| `UndoHistory.EditIs` | src/useUndoHistory.ts:49-68 | what an edit does: nothing if the value is the same, else it drops the future and opens a step unless it has the same non-empty key within the window |
| `UndoHistory.OneUndoPerStep` | src/useUndoHistory.ts:26-68 | an edit that continues no step is undone by one undo, one that does together with it |
| `UndoHistory.DifferentKeysStayApart` | src/useUndoHistory.ts:55-59 | two edits under different keys are two steps, however close together |
| `UndoHistory.ApplyIsEdit` | src/useUndoHistory.ts:49-51 | an edit by function is the edit to what it gives |
| `UndoHistory.ResetForgets` | src/useUndoHistory.ts:25 | a reset forgets everything but its value |
| `UndoHistory.MovingEndsBurst` | src/useUndoHistory.ts:29-46 | no edit continues a burst across an undo or redo |
| `UndoHistory.AbstractIsInjective` | src/useUndoHistory.ts:6-12 | the timeline determines past, present and future |
| `UndoHistory.ReachableInv` | src/useUndoHistory.ts:47-68 | in every reachable state past and future together stay within the limit, and a merge key means no future and a non-empty past |
| `UndoHistory.UndoRedoRestoresIff` | src/useUndoHistory.ts:26-47 | k undos and k redos restore all three parts iff there are k steps to undo or nothing to redo |
| `UndoHistory.BurstLeavesOpenings` | src/useUndoHistory.ts:49-68 | for every limit, a same-key burst leaves behind exactly the values before its steps, a step opening at each change that does not follow the last one within the window |
| `UndoHistory.BurstIsOneStepIff` | src/useUndoHistory.ts:52-68 | a burst is one step, undone by a single undo, iff every change follows the one before within the window |
| `UndoHistory.UnchangedEditDoesNotExtendWindow` | src/useUndoHistory.ts:52 | a concrete burst with an unchanged edit in the middle that becomes two steps |
| `ProfileNames.UniqueImportedProfileName` | src/mappingImport.ts:135-150 | terminates with a fresh, valid name: the base, or the first free numbered candidate, within as many tries as names in use, and one more exactly when those names are the first candidates, base included |
| `ProfileNames.ExtraTryIff` | src/mappingImport.ts:144-148 | that bound and its exact condition, from the name found |
| `ProfileNames.FoundIsUnique` | src/mappingImport.ts:144-148 | the search has one outcome |
| `ProfileNames.ResolveImportedProfileName` | src/mappingImport.ts:152-160 | replacing keeps the base name, copying makes it fresh |
| `ProfileNames.PlainNameIsKept` | src/mappingImport.ts:136-140 | a plain profile name comes back from its file name, under any of the extensions |
| `ProfileNames.ExtensionsInAnyCase` | src/mappingImport.ts:137 | extensions are removed in any case, and the mask marker before either |
| `ProfileNames.DashedRun` | src/mappingImport.ts:138 | each run of other characters becomes one dash |
| `ProfileNames.BaseIsBetweenDashes` | src/mappingImport.ts:139-141 | what remains between the dashes at the ends, cut to 80 characters, is the base name |
| `ProfileNames.EmptyNameUsesClock` | src/mappingImport.ts:141 | a name with nothing to keep is called after the clock |
| `ProfileNames.BaseIsProfileName` | src/mappingImport.ts:136-141 | the base name of any file passes the validator's name check |
| `ProfileNames.CandidateIsProfileName` | src/mappingImport.ts:145-146 | so does every numbered candidate |
| `ProfileNames.CandidateNumber` | src/mappingImport.ts:145-146 | truncated candidates are injective: each still ends in its own number |
| `ProfileNames.CandidateIs` | src/mappingImport.ts:145-146 | a candidate is the base, cut as far as needed, and its number |
| `ProfileNames.TriedFit` | src/mappingImport.ts:144-148 | pigeonhole: tried names cannot outnumber the names in use |
| `ProfileNames.ImportedAgainTakesTwoTries` | src/mappingImport.ts:135-150 | the input for it: an 80-character file name ending in `-import-2`, itself in use, takes two tries |
| `MappingEditor.NextContactId` | src/mappingEditor.ts:9-19 | the head of the contacts sorted by usage and then id, 0 when all are reserved |
| `MappingEditor.CountUsage` | src/mappingEditor.ts:10-15 | the usage map counts every contact of every mapping |
| `MappingEditor.NextContact` | src/mappingEditor.ts:16-18 | the specified contact: least used, then lowest |
| `MappingEditor.UsageIsMultiplicity` | src/mappingEditor.ts:10-15 | usage is how often a contact occurs among those of all mappings |
| `MappingEditor.AssignedContacts` | src/mappingEditor.ts:21-31 | assigning keeps the kind of a mapping and gives it the least used contacts |
| `MappingEditor.EditorMapping.AssignContacts` | src/mappingEditor.ts:21-31 | assigns the contact fields in place, the second one after the first |
| `MappingEditor.CreateEditorMapping` | src/mappingEditor.ts:113-115 | a created mapping with contacts assigned |
| `MappingEditor.DuplicateEditorMapping` | src/mappingEditor.ts:117-122 | a copy, moved and given contacts; the source is left alone |
| `MappingEditor.DualContactsDiffer` | src/mappingEditor.ts:24-28 | a dual mapping gets two different contacts, each the least used one left |
| `MappingEditor.AssignKeepsBalance` | src/mappingEditor.ts:21-31 | one assignment keeps the five usage counts within 1 |
| `MappingEditor.EditsKeepBalance` | src/App.tsx:562-575 | so does every sequence of create and duplicate edits |
| `MappingEditor.RoundIsBalanced` | src/mappingEditor.ts:9-19 | contacts handed out in turn are balanced |
| `MappingEditor.DuplicateMovesOnlyFirstPlace` | src/mappingEditor.ts:117-122 | a copy differs in id, contacts and first position only, and stays in the frame |
| `MappingEditor.OffsetIs` | src/mappingEditor.ts:33-38 | a copy moves by 0.025 each way, up to the edge |
| `MappingEditor.UpdateKeepsOthers` | src/types.ts:591-609 | moving touches the first place only |
| `MappingEditor.PositionLaws` | src/types.ts:585-609 | reading and updating a position obey the lens laws; when writing back what was read changes nothing |
| `CaptureFiles.ReplaceLocalFile` | crates/devicehub-host/src/capture_files.rs:172-204 | the file-system effects in order, each of which may fail: equals `ReplaceStates`, and when it returns Ok |
| `CaptureFiles.ReplacementLosesNothing` | crates/devicehub-host/src/capture_files.rs:172-204 | in every state, so after a crash anywhere, the old content is at the destination or the backup, or that of the temporary file is in place, and stays there |
| `CaptureFiles.ReplacementEnds` | crates/devicehub-host/src/capture_files.rs:172-204 | what is where at the end, on success and on failure |
| `CaptureFiles.CaptureFileWriter.Write` | crates/devicehub-host/src/capture_files.rs:75-83 | appends all bytes, or a prefix of them when it fails; the count follows only on success |
| `CaptureFiles.CaptureFileWriter.FinishFile` | crates/devicehub-host/src/capture_files.rs:85-106 | flush, sync, replace, clean up: when it succeeds, that it publishes exactly what the temporary file holds, what it reports, and that no state on the way loses the old content before that is in place |
| `CaptureFiles.WriteHeader` | crates/devicehub-host/src/capture_files.rs:51-60 | creates the temporary file and writes the header, or removes it again unless that fails too |
| `CaptureFiles.Create` | crates/devicehub-host/src/capture_files.rs:41-66 | refuses an unsuitable destination, else gives a writer; what is left of the temporary file when it fails |
| `CaptureFiles.LandedIff` | crates/devicehub-host/src/capture_files.rs:75-83 | over any sequence of writes: everything offered has landed iff none cut its chunk short; the count is what landed iff no failed one left bytes |
| `CaptureFiles.PublishedIsWholeIff` | crates/devicehub-host/src/capture_files.rs:75-97 | so exactly when a published capture is whole, and when the reported count is its length |
| `CaptureFiles.Capture` | crates/devicehub-host/src/capture_files.rs:41-106 | a whole capture with writes that may fail: on success the destination holds the header and what landed, whole and correctly counted exactly under those conditions |
| `CaptureFiles.TornCaptureReplacesOld` | crates/devicehub-runtime/src/capture/network.rs:356-382 | a capture that is finished after a write failed half-way: the old capture is replaced by a torn one, longer than reported |

## Left out

- React components, hooks, styling, translations, HTTP routes, WebSocket, Bonjour and device services: input, output and glue.
- Clocks, random UUIDs and network results are inputs; UUIDs are only assumed non-empty, so a collision in an importer is a skip.
- Lock poisoning and weak memory: steps are atomic and sequentially consistent, one per store or load of an atomic.
- LogDelivery.RunKeepsInv, DeviceLogs.RunRetains: runs of at most 2^64 - 1 steps, so that `next_sequence` does not saturate; `DeviceLogs.PublishKeepsNumbering` says exactly what saturation breaks.
- OperationRegistry.RunKeepsInv: runs of at most 2^64 - 1 commands, so that ids do not wrap around.
- LogDelivery.RunKeepsInv: JSON numbers hold sequences above 2^53 only approximately; the client's sequences are exact here.
- LogsPage.DeviceLogsPage.RefreshPages: a change of device is a local clear and a disposal, and polling another slot is not modelled.
- LogsPage.DeviceLogsPage.Clear: that a refresh takes in pages between the two halves of a clear is a run of `LogDelivery` and of `RefreshPages`, whose awaits admit both halves, not of this method.
- The `view` and `error` states of the log page, pausing (a disposed refresh is `Drop`), and the log archive.
- `AppDocumentActivitySlot`: the protocol of `DeviceFileActivitySlot` with a bundle guard on top.
- Floating-point rounding, NaN and infinities: coordinates, progress and JSON numbers are reals.
- Strings are sequences of Unicode scalar values; lone UTF-16 surrogates do not occur, and `slice` and `length` on text outside the basic plane count characters, not code units.
- JSON and XML tokenising, `Number(text)` (a parameter of the plist decoder), the doctype and size checks of `parsePlayCoverPlist`, and the HID usage table (a parameter of the PlayCover importer).
- PlayCover labels (`note`), which no check reads; frames are whole pixels.
- Error texts, except those that the operation registry stores.
- CaptureFiles.Create: that a destination is no absolute .pcap path in an accessible directory is an input; temporary and backup names are given, the backup's not in use.
- CaptureFiles.CaptureFileWriter.Write: the operating system's buffering is not modelled, so flush and sync are steps that may fail and nothing more.
- `shouldAttachFullscreenToolbars` and `clampToolbarPosition`: a distance threshold and a clamp.
- `convertEditorMappingType`: field copies between two mapping shapes.
- MappingEditor.CountUsage: contact ids are whole numbers; other fields of a mapping are not part of this model, so they are trivially kept.
- UndoHistory.BurstIsOneStepIff: counts steps up to the limit; past it, `UndoHistory.BurstLeavesOpenings` says what is kept.
- UndoHistory.ReduceRefinesTimeline: values are not `undefined`, limits and time stamps are whole numbers, and `Object.is` is equality.
- ProfileNames.UniqueImportedProfileName: fewer than 2^32 existing names, which is what an array can hold, and a clock within the range of ECMAScript time values.
- Sorting and filtering of file lists, preferences, settings persistence, simple status slots and the service registry.
