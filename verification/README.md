# Airwaves OS: a verified model

This project models the parts of Airwaves OS whose correctness depends on state, order or failure, and proves
what they keep. Four linked state machines make up most of it.

* **Radio allocation** (`Sdr`, `SdrEnrich`, `Tuners`, `AppLifecycle`, `RequestedValues`, `SharedTuners`,
  `SdrAnnotate`, `DeviceId`):
  references to tuners in app environments, their completion with exact device ids, the validator, the recorded apps,
  and the device list.
  The conflict test compares ids when both sides have one and serials otherwise, so it is not transitive and does not
  by itself mean "same tuner". Two invariants close the gap: *coherent* records (each id names a connected device of
  the stated serial) and *settled* records (a reference without an id reaches no connected tuner). Under either one,
  every run of requests keeps each tuner to one recorded reference. The settled form needs nothing of the requests.
  Without any invariant, `StepExclusiveExactly` gives the exact condition under which one request keeps exclusivity, and
  `RunsStayExclusiveExactly` carries it over runs.
* **Updates** (`Updater`, `Watchdog`, `VersionCheck`): the host-side transaction with every external command as a
  nondeterministic outcome, the status file shared by manager, systemd and updater, and convergence of apply and check.
* **Boot and installation** (`Slots`, `Layout`, `Unattended`, `InstallGate`): one-shot trials with power loss between any two writes,
  the A/B partition arithmetic, and the unattended install over boots with disks appearing, vanishing and taking over
  each other's device names between any two steps.
* **Reconciliation and bounded windows** (`Reconciler`, `MessageWindow`).

Around them are exact transformations: `ConfigBackup` (secret redaction and restoration), `CommandTokens` (token
substitution), `DeviceId` (ids to device paths) and `Terse` (nmcli unescaping). `Text`, `Numerals` and `Values` hold
the string and number operations the sources call.

Code that the source runs step by step is a method or a class here, proved equal to a specification function or
relation; the properties are lemmas about that specification. A loop over a Rust hash map takes its keys in an
arbitrary order, so each result holds for every order.

`dafny verify dfyconfig.toml` checks the project with Dafny 4.11.

## Where the code does less than it could be read to promise

* Two references without a common kind of key never conflict, so an app that names a tuner by its id alone is accepted
  next to a record that reaches the same tuner by serial (`SharedTuners.BareIdBreaksExclusivity`). A bundle that fails
  half way can leave two apps on one tuner (`SharedTuners.HalfBundleBreaksExclusivity`). These are the only two ways
  (`AppLifecycle.StepExclusiveExactly`).
* Rollback restores snapshots and deletes nothing: a managed file that is missing when an update starts is replaced by
  the snapshot of an older run, or stays as the failed run wrote it (`Updater.UnchangedAfterRollbackExactly`;
  in terms of the request, `Updater.UnchangedAfterRollbackBeforehand`).
* An update killed before its first status write stays `queued` (`Watchdog.KilledInQueuedWindowIsNeverReported`). A query
  that systemd does not answer counts as "not running", which declares a live updater dead exactly when its file shows
  progress (`Watchdog.LiveUpdaterDeclaredDeadExactly`), and lets a second request replace that of a live updater
  (`Watchdog.BlindCheckOverwrites`); with answers it cannot (`Watchdog.ActiveUpdateIsNotOverwritten`).
* Versions that are not semantic are compared for equality only, so an update from one to another is offered back once it
  is installed (`VersionCheck.OfferedBackExactly`).
* Preflight looks at everything but `removable`, and the target is a name: a removable disk that takes the name over
  during the countdown is erased (`Unattended.ReusedNameErasesRemovable`, with the exact statement in
  `Unattended.ErasedDiskExactly`). A disk that takes it over after preflight is not looked at again at all.
* The config partition is looked up by label, so a stick left in place can arm the disk that was just installed. A
  self-install lowers the number of armed disks exactly when its boot disk or its target was armed
  (`Unattended.SelfInstallLowersExactly`); one that is not can be repeated without end (`Unattended.ForeignConfigLoops`).
* The reconciler takes a container listing that fails for an empty one, and then replaces containers of recorded apps
  even if they are not its own (`Reconciler.UnmanagedUntouchedExactly`).
* acarsdec opens an RTL tuner by serial even when an exact id is recorded, so with two devices of one serial its
  container can open the other tuner (`Reconciler.NativeRadioIsTheRecordedExactly`).
* The sed unescaping in the console differs from the scanner on fields that contain byte 0x01
  (`Terse.SedAgreesExactlyWithoutPlaceholder`), and values with braces make the order of token substitution visible
  (`CommandTokens.BracesMakeTheOrderVisible`).
* Rollback commits "the other slot", which is the previously committed one only when the running slot is a trial
  (`Slots.RollbackRestoresExactlyFromATrial`).

## Model

| member | source | states |
|---|---|---|
| `Sdr.ReferencesFromEnv` | containers/airwaves-manager/src/sdr.rs:117-176 | in whatever order the hash map yields its keys, the two loops list every radio reference of an environment exactly once and nothing else |
| `Sdr.BareSerialKeysExactly` | containers/airwaves-manager/src/sdr.rs:87-106 | which variables take a bare serial, in any case: those that mention RTLSDR_DEVICE, are or end in a serial, or are the device of an SDR, unless they mention one of the setting words |
| `Sdr.SerialReferences` | containers/airwaves-manager/src/sdr.rs:117-155 | the first loop lists exactly the references that name a serial, and remembers exactly the fields that also carry an exact id |
| `Sdr.IdOnlyReferences` | containers/airwaves-manager/src/sdr.rs:157-176 | the second loop lists exactly the references known by id alone |
| `Sdr.AssignmentsFromConfig` | containers/airwaves-manager/src/sdr.rs:255-283 | the recorded assignments are exactly the references of every record, for an array, an object or anything else under `apps`, each tagged with its record's id |
| `Sdr.CountSerials` | containers/airwaves-manager/src/sdr.rs:415-420 | the serial counters count the connected devices of each normalised serial |
| `Sdr.FindAmbiguous` | containers/airwaves-manager/src/sdr.rs:422-432 | the serial loop finds a fault exactly when a target names, without an id, a serial that several connected devices carry |
| `Sdr.FindTargetPair` | containers/airwaves-manager/src/sdr.rs:434-449 | the pairwise loops find a fault exactly when two different references of the targets conflict |
| `Sdr.FindTaken` | containers/airwaves-manager/src/sdr.rs:451-478 | the last loops find a fault exactly when a target conflicts with a record of an app that is not itself a target |
| `Sdr.ValidateAppSdrAssignments` | containers/airwaves-manager/src/sdr.rs:397-479 | accepted if and only if none of the four faults exists; otherwise the class of the first fault, independently of any order of iteration |
| `AppLifecycle.VerdictIsUnique` | containers/airwaves-manager/src/sdr.rs:397-479 | the verdict relation determines one answer, so the validator is deterministic although its maps are not ordered |
| `SdrEnrich.EnrichAppSdrMetadata` | containers/airwaves-manager/src/sdr.rs:350-385 | the insert loop leaves exactly the completed environment and returns true exactly when the environment changed |
| `SdrEnrich.IndexBySerial` | containers/airwaves-manager/src/sdr.rs:351-359 | the index holds, per normalised serial, exactly the devices of that serial in order |
| `SdrEnrich.EnrichmentKeepsReferences` | containers/airwaves-manager/src/sdr.rs:350-385 | completion keeps each reference's field and serial, never replaces an id, and adds only the id of the only device with that serial |
| `SdrEnrich.EnrichmentIsIdempotent` | containers/airwaves-manager/src/sdr.rs:350-385 | a second completion changes nothing |
| `SdrEnrich.EnrichmentKeepsTuners` | containers/airwaves-manager/src/sdr.rs:350-385 | completion never changes which connected tuner a reference can use |
| `Tuners.UndetectedSharingExactly` | containers/airwaves-manager/src/sdr.rs:387-395 | references that pass the conflict test share a tuner if and only if one names it by an id without that serial and the other reaches it by serial alone |
| `Tuners.CoherentSharingConflicts` | containers/airwaves-manager/src/sdr.rs:387-395 | when every id names a connected device of the stated serial, sharing a tuner is always a conflict, although the conflict relation is not transitive |
| `Tuners.SettledSharingConflicts` | containers/airwaves-manager/src/sdr.rs:387-395 | when references without an id reach no connected tuner, sharing a tuner is always a conflict |
| `Tuners.EnrichmentKeepsCoherence` | containers/airwaves-manager/src/sdr.rs:350-385 | completing coherent assignments leaves them coherent |
| `Tuners.EnrichmentCreatesNoConflict` | containers/airwaves-manager/src/sdr.rs:350-395 | completing coherent assignments on both sides creates no conflict that was not there before |
| `Tuners.UnambiguousIsSettled` | containers/airwaves-manager/src/sdr.rs:422-432 | after completion, the ambiguity test lets a reference through if and only if it carries an id or reaches no connected tuner |
| `AppLifecycle.AppHandlers.CompleteTargets` | containers/airwaves-manager/src/handlers/apps.rs:194-198 | the requested app and its bundled apps are each completed with device ids |
| `AppLifecycle.AppHandlers.InstallTargets` | containers/airwaves-manager/src/handlers/apps.rs:209-234 | the targets are installed and recorded in turn; a Docker failure ends the handler and a failed record is skipped |
| `AppLifecycle.AppHandlers.Submit` | containers/airwaves-manager/src/handlers/apps.rs:167-311 | install and reconfigure leave the app ids and environments of the records as the specification function of request, devices and outcomes says; a refusal leaves them unchanged |
| `RequestedValues.PreparedValues` | containers/airwaves-manager/src/handlers/apps.rs:171-193 | the requested app is prepared with every variable at the request's value, else on an update at the value of its first record, else at the catalog default; only acarsdec's output policy and a hub's inputs are set by the handler |
| `RequestedValues.RequestedValuesAreRecorded` | containers/airwaves-manager/src/handlers/apps.rs:248-288 | after an accepted request whose app was installed and recorded, the one record of the app holds each of these values; only exact ids left blank may be filled in |
| `RequestedValues.RecordedEnvExactly` | containers/airwaves-manager/src/handlers/apps.rs:627-641 | the recorded values are those of the first record of the id, and none when there is no such record |
| `RequestedValues.NotInCatalogExactly` | containers/airwaves-manager/src/handlers/apps.rs:238-246 | a request is refused as unknown if and only if no catalog app has the name, given as app or as container; the one other refusal before the radio check is the missing hub |
| `RequestedValues.HubMissingExactly` | containers/airwaves-manager/src/handlers/apps.rs:109-145 | the hub is missing if and only if acarsdec is to forward, by the value just described, and no record has the hub's id |
| `AppLifecycle.AppHandlers.UninstallApp` | containers/airwaves-manager/src/handlers/apps.rs:599-610 | uninstalling takes out exactly the records of that id and keeps the others unchanged and in order; when removal or writing fails nothing changes |
| `AppLifecycle.AppHandlers.MigrateSdrAssignmentMetadata` | containers/airwaves-manager/src/handlers/apps.rs:541-574 | the records after the boot-time pass are those of completing every named record, and they are written only if some record changed |
| `AppLifecycle.PreparedIdsAreDistinct` | containers/airwaves-manager/src/handlers/apps.rs:171-193 | a hub and the decoders it brings along never share an app id, so each target keeps its own record |
| `AppLifecycle.RecordAll` | containers/airwaves-manager/src/handlers/apps.rs:644-655 | recording one by one until Docker fails equals replacing at once the old records of exactly the apps that end up recorded |
| `AppLifecycle.WithoutIsSelection` | containers/airwaves-manager/src/handlers/apps.rs:644-665 | `retain` keeps the records of other ids, each once, unchanged and in order |
| `AppLifecycle.AcceptedTargetsSettled` | containers/airwaves-manager/src/handlers/apps.rs:194-207 | whatever was requested, targets that were completed and accepted leave no bare serial that reaches a connected tuner |
| `AppLifecycle.StepExclusiveExactly` | containers/airwaves-manager/src/handlers/apps.rs:167-311 | from exclusive records, any request with any outcome keeps them exclusive if and only if no recorded target overlaps another app's kept record in a way the conflict test misses and no old record of a target that failed shares a tuner with one that was recorded; uninstall and migration always do |
| `AppLifecycle.RunsStayExclusiveExactly` | containers/airwaves-manager/src/handlers/apps.rs:167-311 | a run from exclusive records stays exclusive throughout if and only if each of its requests meets that condition |
| `AppLifecycle.RecordingExclusiveExactly` | containers/airwaves-manager/src/sdr.rs:397-479 | the condition for one accepted request: completed targets are always apart from each other, and apart from another app's record exactly when no overlap is hidden |
| `AppLifecycle.WholeRunsAreTidy` | containers/airwaves-manager/src/handlers/apps.rs:211-234 | requests whose targets are all recorded, or none, meet the second half of the condition |
| `AppLifecycle.OneTargetIsWhole` | containers/airwaves-manager/src/handlers/apps.rs:167-234 | only a hub brings further apps along: every other request is recorded wholly or not at all |
| `AppLifecycle.SettledRunsStayExclusive` | containers/airwaves-manager/src/handlers/apps.rs:167-311 | over every run of install, reconfigure, uninstall and migration with any requests at all, half-failed bundles included as long as no old record of a failed target shares a tuner with a recorded one, no two recorded references reach the same tuner, once every recorded bare serial reaches none |
| `AppLifecycle.CoherentRunsStayExclusive` | containers/airwaves-manager/src/handlers/apps.rs:167-311 | the same when recorded and requested ids name connected devices of the same serial |
| `AppLifecycle.ConflictFreeIsExclusive` | containers/airwaves-manager/src/sdr.rs:387-395 | for coherent or settled records, having no conflicting pair is exclusivity of tuners |
| `AppLifecycle.MigrationSettlesExactly` | containers/airwaves-manager/src/handlers/apps.rs:541-574 | the boot-time migration settles a list of named records if and only if no recorded reference is ambiguous |
| `SharedTuners.BareIdBreaksExclusivity` | containers/airwaves-manager/src/handlers/apps.rs:167-234 | a request after which the records share a tuner: an app installed with its tuner named by id alone is accepted next to a record that reaches the same tuner by serial |
| `SharedTuners.HalfBundleBreaksExclusivity` | containers/airwaves-manager/src/handlers/apps.rs:167-234 | a hub request that gives one decoder the tuner from which it moves the other is accepted; if Docker fails at the decoder that moves, its old record and the new one of the other decoder share the tuner, although every reference carries an exact id |
| `SharedTuners.MovingHubMoves` | containers/airwaves-manager/src/handlers/apps.rs:366-507 | there is such a hub request: four variables, two switches and two picked ids |
| `AppLifecycle.AcarsdecTakesTheRadio` | containers/airwaves-manager/src/handlers/apps.rs:383-434 | the radio picked for a hub's local ACARS decoder becomes that decoder's radio, by value and by id, and the hub itself keeps no reference to it |
| `AppLifecycle.Dumpvdl2TakesTheRadio` | containers/airwaves-manager/src/handlers/apps.rs:437-481 | the same for the local VDL2 decoder |
| `AppLifecycle.ForwardsExactlyWhenEnabled` | containers/airwaves-manager/src/handlers/apps.rs:109-143 | refused exactly when forwarding is on without an installed hub; otherwise acarsdec points at the local hub if and only if forwarding is on |
| `RequestedValues.OutputExactly` | containers/airwaves-manager/src/handlers/apps.rs:109-165 | acarsdec's output is the local hub when it forwards, a remote server as it is, and otherwise none |
| `RequestedValues.BundleIsAsEnabled` | containers/airwaves-manager/src/handlers/apps.rs:380-487 | the decoders that come along with a hub are exactly the enabled ones that the catalog has |
| `RequestedValues.AcarsdecSettings` | containers/airwaves-manager/src/handlers/apps.rs:391-434 | the local ACARS decoder takes radio, frequencies and feed id from the hub, or by default, and forwards |
| `RequestedValues.Dumpvdl2Settings` | containers/airwaves-manager/src/handlers/apps.rs:437-483 | the local VDL2 decoder likewise, with the hub as its server and no ZeroMQ output |
| `RequestedValues.BundledAcarsdecForwards` | containers/airwaves-manager/src/handlers/apps.rs:380-434 | what a hub brings along already has the output that the policy would give it |
| `RequestedValues.HubInputs` | containers/airwaves-manager/src/handlers/apps.rs:380-487 | the hub opens an input for each enabled decoder, where its connections say or at the default port, and nothing else changes |
| `AppLifecycle.PolicyKeepsRadio` | containers/airwaves-manager/src/handlers/apps.rs:109-143 | the output policy changes no radio reference, other than at the output and forwarding variables themselves |
| `SdrAnnotate.SortAndDedup` | containers/airwaves-manager/src/sdr.rs:311-312 | the user list comes out strictly ascending with the same members |
| `SdrAnnotate.BuildIndexes` | containers/airwaves-manager/src/sdr.rs:293-302 | the two hash indexes hold exactly the app names of the assignments by id and by bare serial |
| `SdrAnnotate.UsersFromIndexes` | containers/airwaves-manager/src/sdr.rs:305-312 | the index lookups give each device exactly the apps with a reference to it |
| `SdrAnnotate.AnnotateSdrDevices` | containers/airwaves-manager/src/sdr.rs:285-338 | in place, every device gets the status and sorted user list that the plain relation gives it, including repeated device ids, of which only the first sees the exact users |
| `SdrAnnotate.AnnotationExactly` | containers/airwaves-manager/src/sdr.rs:305-335 | what the annotation says of each device: conflict with users of two names, otherwise ambiguous when another connected device has its serial, otherwise assigned when used, otherwise nothing new; a single user is named |
| `SdrAnnotate.StatusExactly` | containers/airwaves-manager/src/sdr.rs:305-335 | a device as scanned ends up with each of the four statuses exactly when it applies, and has users listed exactly when some name can use it |
| `SdrAnnotate.BeforeIsLexicographic` | containers/airwaves-manager/src/sdr.rs:311-312 | the users are in lexicographic order |
| `SdrAnnotate.JoinParts` | containers/airwaves-manager/src/sdr.rs:315 | the names are joined with a comma and a space |
| `SdrAnnotate.ConflictExactlyWhenShared` | containers/airwaves-manager/src/sdr.rs:314-317 | a device is marked "conflict" if and only if apps of two different names can use it |
| `SdrAnnotate.ExclusiveNeverConflicts` | containers/airwaves-manager/src/sdr.rs:285-338 | for exclusive records no connected device is ever marked "conflict" |
| `DeviceId.DashBeforeDigitsIsLast` | containers/airwaves-manager/src/sdr.rs:179-180 | searching from the right, a dash pattern followed only by digits is found where it was printed |
| `DeviceId.PathOfPrintedId` | containers/airwaves-manager/src/sdr.rs:178-184 | parsing a printed id gives exactly the device path of its bus and address, for every serial, even one that contains "-bus" or "-dev" |
| `DeviceId.UsbPathIsInjective` | containers/airwaves-manager/src/sdr.rs:183 | different bus and address pairs give different device paths |
| `DeviceId.SameIdSamePlace` | containers/airwaves-manager/src/adapters/hardware.rs:207-214 | devices at different places never get the same id |
| `DeviceId.SameIdSameKind` | containers/airwaves-manager/src/adapters/hardware.rs:207-214 | equal ids also mean the same vendor and product |
| `DeviceId.ListedExactly` | containers/airwaves-manager/src/adapters/hardware.rs:196-228 | a USB device is listed exactly when its vendor and product are known, with its printed id and its own serial, as available |
| `DeviceId.ListedInParts` | containers/airwaves-manager/src/adapters/hardware.rs:196-228 | the list of a scan is made up of the lists of its parts, in order, so every radio appears once |
| `DeviceId.ListedDevicesAreATable` | containers/airwaves-manager/src/adapters/hardware.rs:196-233 | a scan of USB devices at distinct places yields distinct, unpadded, non-empty ids, which is what exclusivity assumes |
| `Numerals.PadRoundTrip` | containers/airwaves-manager/src/adapters/hardware.rs:207-214 | a zero-padded number parses back to itself |
| `Numerals.ParseExactly` | containers/airwaves-manager/src/adapters/updater.rs:323 | a printed number is parsed exactly when it is below the limit of the type |
| `ConfigBackup.RedactSecrets` | containers/airwaves-manager/src/handlers/config.rs:48-66 | the walk replaces exactly the non-null members under sensitive keys, in any order of the members |
| `ConfigBackup.SensitiveExactly` | containers/airwaves-manager/src/handlers/config.rs:32-46 | which keys are secret, in any case: three names, those ending in key after a separator, and those that mention one of four words, unless they mention public |
| `ConfigBackup.RestoreRedacted` | containers/airwaves-manager/src/handlers/config.rs:71-96 | the walk puts the current value back for each sentinel, removes sentinels without one, and goes on with null where the current tree ends |
| `ConfigBackup.RoundTrip` | containers/airwaves-manager/src/handlers/config.rs:48-96 | importing one's own export restores every JSON tree exactly |
| `ConfigBackup.RedactionIsIdempotent` | containers/airwaves-manager/src/handlers/config.rs:48-66 | redacting an export again changes nothing |
| `ConfigBackup.ExportHidesExactlyTheSecrets` | containers/airwaves-manager/src/handlers/config.rs:48-66 | two exports are equal if and only if the trees differ only in non-null secrets |
| `ConfigBackup.ImportLeavesNoSentinel` | containers/airwaves-manager/src/handlers/config.rs:71-96 | if the device's config has no sentinel member, no upload can bring one in, at any depth |
| `ConfigBackup.ImportIsIdempotent` | containers/airwaves-manager/src/handlers/config.rs:71-96 | importing what an import produced changes nothing, over any later config |
| `CommandTokens.SubstituteTokens` | containers/airwaves-manager/src/adapters/docker.rs:592-600 | for brace-free literals, keys and values the replace loop over the hash map is simultaneous substitution |
| `CommandTokens.ReplaceOneKey` | containers/airwaves-manager/src/adapters/docker.rs:596-598 | one round of the loop replaces exactly the tokens of its key |
| `CommandTokens.AnyOrderSubstitutes` | containers/airwaves-manager/src/adapters/docker.rs:596-598 | every order of the keys gives the same substitution |
| `CommandTokens.BracesMakeTheOrderVisible` | containers/airwaves-manager/src/adapters/docker.rs:596-598 | with braces in a value two orders give different commands |
| `Terse.SplitTerse` | containers/airwaves-manager/src/handlers/wifi.rs:34-50 | the scanner computes the recursive meaning of a terse line, a trailing backslash included |
| `Terse.SplitUndoesJoin` | containers/airwaves-manager/src/handlers/wifi.rs:32-50 | splitting undoes escaping and joining for every non-empty list of fields |
| `Terse.SedAgreesExactlyWithoutPlaceholder` | armbian/userpatches/extensions/airwaves-os/scripts/airwaves-tui:274-277 | on an escaped field the three sed passes equal the scanner if and only if the field lacks byte 0x01 |
| `Slots.SlotManager.X86SetTry` | armbian/userpatches/extensions/airwaves-os/scripts/airwaves-slot-manager:97 | the next boot selects the tried slot and the committed slot stays |
| `Slots.SlotManager.X86Commit` | armbian/userpatches/extensions/airwaves-os/scripts/airwaves-slot-manager:98 | the next boot selects the committed slot and leaves the environment alone |
| `Slots.SlotManager.DoRollback` | armbian/userpatches/extensions/airwaves-os/scripts/airwaves-slot-manager:170-179 | rollback commits the other slot |
| `Slots.TrialsAreOneShot` | armbian/userpatches/extensions/airwaves-os/scripts/airwaves-install:824-851 | over every run with power loss anywhere, boots of a slot other than the committed one are at most as many as set-try commands issued |
| `Slots.TrialsComeFromSetTries` | armbian/userpatches/extensions/airwaves-os/scripts/airwaves-slot-manager:152-160 | each trial that reaches the environment block comes from its own set-try |
| `Slots.QuietBootsAreCommitted` | armbian/userpatches/extensions/airwaves-os/scripts/airwaves-install:824-851 | with no trial pending and no command, every boot selects the committed slot |
| `Slots.SecondBootIsCommitted` | armbian/userpatches/extensions/airwaves-os/scripts/airwaves-install:824-851 | after any boot, every later boot without a command between selects the committed slot |
| `Slots.InterruptedCommit` | armbian/userpatches/extensions/airwaves-os/scripts/airwaves-slot-manager:98 | a commit cut short between any two writes leaves the old or the new slot committed |
| `Slots.InterruptedSetTry` | armbian/userpatches/extensions/airwaves-os/scripts/airwaves-slot-manager:97 | a set-try cut short never touches the committed slot |
| `Slots.RollbackRestoresExactlyFromATrial` | armbian/userpatches/extensions/airwaves-os/scripts/airwaves-slot-manager:170-179 | rollback keeps the committed slot if and only if the running slot is a trial |
| `Slots.TrialRolledBack` | armbian/userpatches/extensions/airwaves-os/scripts/airwaves-slot-manager:170-179 | boot a pending trial, roll back, reboot: the slot committed before the trial comes up |
| `Layout.AbSlotMib` | armbian/userpatches/extensions/airwaves-os/scripts/airwaves-install:662-671 | the slot size is 35% of the disk, clamped to 4096..12288 MiB |
| `Layout.PartitionX86Ab` | armbian/userpatches/extensions/airwaves-os/scripts/airwaves-install:673-691 | a disk is accepted if and only if it has 12288 MiB, the later room check never fails on its own, and the five partitions are ordered, disjoint, in bounds, with equal slots of 4300 to 12288 MiB and at least 3074 MiB of data |
| `Layout.SoundPlanIsDisjoint` | armbian/userpatches/extensions/airwaves-os/scripts/airwaves-install:673-691 | in the accepted layout no two partitions overlap, all lie on the disk, and the slots are equal and large enough |
| `MessageWindow.SeenWindow.Admit` | containers/airwaves-manager/src/forwarding.rs:236-246 | set and queue stay equal, without duplicates and at most 2000 long; a line is admitted if and only if it is not among the last 2000 admitted |
| `MessageWindow.SeenWindow.AdmitAll` | containers/airwaves-manager/src/forwarding.rs:235-246 | a batch of lines is admitted as the plain history says |
| `MessageWindow.AdmissionsAreSpaced` | containers/airwaves-manager/src/forwarding.rs:236-246 | repeated lines in the admitted history are more than 2000 admissions apart |
| `MessageWindow.MessageBuffer.Store` | containers/airwaves-manager/src/forwarding.rs:261-270 | one locked batch leaves the last 1000 of everything pushed |
| `MessageWindow.BufferIsSuffixOfAllPushes` | containers/airwaves-manager/src/handlers/forwarding.rs:33-42 | under any interleaving of the locked producers the buffer is the last min(1000, n) of all n pushes |
| `MessageWindow.SurvivorsAreATail` | containers/airwaves-manager/src/forwarding.rs:352-358 | what survives of one producer is the tail of its own messages in its own order |
| `Updater.WaitHealthy` | armbian/userpatches/extensions/airwaves-os/scripts/airwaves-update:215-235 | the gate passes if and only if in some poll before the deadline both containers are healthy |
| `Updater.ContainerHealthyExactly` | armbian/userpatches/extensions/airwaves-os/scripts/airwaves-update:204-214 | Docker's verdict decides; a container without a health check must be running, and one that cannot be inspected fails |
| `Updater.UpdateRun.BackUp` | armbian/userpatches/extensions/airwaves-os/scripts/airwaves-update:295-300 | every snapshot holds the file's content at the start, or an older leftover if there was no file; nothing else changes |
| `Updater.UpdateRun.Download` | armbian/userpatches/extensions/airwaves-os/scripts/airwaves-update:257-275 | the destination changes only to what the URL serves and only if the checksum agrees |
| `Updater.UpdateRun.SyncHostFiles` | armbian/userpatches/extensions/airwaves-os/scripts/airwaves-update:325-388 | every path holds what the last permitted host file that was fetched for it serves, or else what it held before; snapshots, the request and (when no entry targets them) the managed files are untouched, and nothing but the targets is written |
| `Updater.MaySyncExactly` | armbian/userpatches/extensions/airwaves-os/scripts/airwaves-update:339-372 | the tests of the loop admit exactly the files with a plain absolute destination, a canonical path below an allowed directory that is not the running script, a URL and a checksum |
| `Updater.OnlyPermittedPathsChange` | armbian/userpatches/extensions/airwaves-os/scripts/airwaves-update:350-380 | a path that host files change is below an allowed directory, is not the running script, and holds what is served under its entry's checksum |
| `Updater.PermittedFileArrives` | armbian/userpatches/extensions/airwaves-os/scripts/airwaves-update:339-380 | a permitted host file that is reached and matches its checksum is there at the end, unless a later entry has the same path |
| `Updater.PathsAreHostPaths` | armbian/userpatches/extensions/airwaves-os/scripts/airwaves-update:20-45 | every host path is modelled by one file, and each named file by its own host path |
| `Updater.UpdateRun.DownloadConfig` | armbian/userpatches/extensions/airwaves-os/scripts/airwaves-update:390-421 | it succeeds exactly when every wanted file is reached, served and matches its checksum; then compose, catalog and markers are as requested, and otherwise everything is already rolled back |
| `Updater.UpdateRun.PinImageTag` | armbian/userpatches/extensions/airwaves-os/scripts/airwaves-update:243-255 | of every image reference in the compose file, a tag of this image is replaced and a reference without the image's name stays; a missing file is not created |
| `Updater.UpdateRun.UpdateVersionMarker` | armbian/userpatches/extensions/airwaves-os/scripts/airwaves-update:600-606 | one marker is set, in a fresh file if there was none |
| `Updater.UpdateRun.UpdateImages` | armbian/userpatches/extensions/airwaves-os/scripts/airwaves-update:423-504 | it succeeds exactly when there is space, pull and recreation succeed and some poll finds both containers healthy; then the stack runs the pinned references, and otherwise everything is rolled back |
| `Updater.UpdateRun.UpdateOs` | armbian/userpatches/extensions/airwaves-os/scripts/airwaves-update:506-576 | the OS phases fail plainly, without rollback |
| `Updater.UpdateRun.RollbackConfig` | armbian/userpatches/extensions/airwaves-os/scripts/airwaves-update:585-592 | every snapshot is put back and nothing is deleted: a file without a snapshot is there exactly if the run wrote it |
| `Updater.UpdateRun.PerformUpdate` | armbian/userpatches/extensions/airwaves-os/scripts/airwaves-update:279-583 | how a run ends is determined by its request and the outside world's answers: rolled back (each managed file restored from its snapshot, or, without one, present exactly if this run wrote it), successful, or failed in an OS phase; it writes only what its request names, creates a missing file only when it has a source for it, and changes other paths only through permitted host files |
| `Updater.AppliedIsServed` | armbian/userpatches/extensions/airwaves-os/scripts/airwaves-update:390-421 | after success a wanted catalog is what its URL serves under the stated checksum, and so is a wanted compose file apart from the pinned tags; what was not wanted is unchanged |
| `Updater.MayWriteExactly` | armbian/userpatches/extensions/airwaves-os/scripts/airwaves-update:325-440 | which files a request can create or write: host file targets, wanted files with a URL, the markers when a revision comes with one, and the compose file when tags are pinned |
| `Updater.RolledBackFilesAreUnchanged` | armbian/userpatches/extensions/airwaves-os/scripts/airwaves-update:585-592 | if compose, catalog and markers exist at the start, a rolled-back run leaves the three byte-identical |
| `Updater.UnchangedAfterRollbackExactly` | armbian/userpatches/extensions/airwaves-os/scripts/airwaves-update:585-592 | after a rollback a managed file is as at the start if and only if it existed then, or there was neither a leftover snapshot of an older run nor a write by this one |
| `Updater.UnchangedAfterRollbackBeforehand` | armbian/userpatches/extensions/airwaves-os/scripts/airwaves-update:390-421 | known before the call: a managed file that exists, or that has no leftover snapshot and that the request cannot create, comes out of a rollback as it was; for files the request cannot create, exactly these do |
| `VersionCheck.Check` | containers/airwaves-manager/src/adapters/updater.rs:280-334 | the list reports manager, gateway, compose and catalog, each if the manifest has it, once and with the right verdict, and nothing else |
| `VersionCheck.ImageOfferedExactly` | containers/airwaves-manager/src/adapters/updater.rs:151-164 | an image in the list is offered never for an unknown version, between two semantic versions exactly when the manifest's is the greater one, leading v's aside, and otherwise exactly when it differs from a known installed version; the version is the suffixed tag, or else the one beside it |
| `VersionCheck.FileOfferedExactly` | containers/airwaves-manager/src/adapters/updater.rs:318-334 | a config file is offered exactly when its revision, 0 if it is no number, is above the marker |
| `VersionCheck.UnmarkedFilesAreOffered` | containers/airwaves-manager/src/adapters/updater.rs:318-334 | without a marker file every config file with a positive revision is offered |
| `VersionCheck.OfferedBackExactly` | containers/airwaves-manager/src/adapters/updater.rs:151-164 | an update that is offered is offered back, with installed and available exchanged, if and only if one of the two is no semantic version |
| `VersionCheck.RequestIsAsSelected` | containers/airwaves-manager/src/adapters/updater.rs:373-437 | the request carries compose, catalog and major upgrade exactly as selected, and always the host files |
| `VersionCheck.RepairKeepsVersions` | containers/airwaves-manager/src/adapters/updater.rs:509-528 | a successful repair changes no config file, tag or marker, and the stack runs what was pinned before |
| `Updater.PinReplacesTag` | armbian/userpatches/extensions/airwaves-os/scripts/airwaves-update:243-255 | pinning replaces whatever tag the reference had |
| `Updater.PinLeavesOthers` | armbian/userpatches/extensions/airwaves-os/scripts/airwaves-update:243-255 | pinning leaves a reference alone in which the image's name does not occur |
| `Updater.PinInText` | armbian/userpatches/extensions/airwaves-os/scripts/airwaves-update:243-255 | in a text the tag is replaced up to a quote or a space, and the rest is handled on its own |
| `Updater.UntaggedStays` | armbian/userpatches/extensions/airwaves-os/scripts/airwaves-update:243-255 | the image's name without a tag is left alone |
| `VersionCheck.PinnedTagIsReadBack` | containers/airwaves-manager/src/adapters/docker.rs:124-136 | a pinned tag is what the manager reads back, even with a port in the registry host, if and only if it is neither latest nor a digest |
| `VersionCheck.ImagesAfterUpdate` | containers/airwaves-manager/src/adapters/updater.rs:373-437 | after a successful update of any part of the stack both containers report the tags of the manifest |
| `VersionCheck.ManagerReportedExactly` | containers/airwaves-manager/src/adapters/updater.rs:282-298 | the manager is still reported after the update if and only if its tag has no suffix and is older than the version beside it |
| `VersionCheck.GatewayReportedExactly` | containers/airwaves-manager/src/adapters/updater.rs:300-316 | the same for the gateway and the control app version |
| `VersionCheck.RevisionReportedExactly` | containers/airwaves-manager/src/adapters/updater.rs:318-334 | after an update of any selection a config file is still reported if and only if its revision was above the marker and it was not selected or the manifest gives no URL for it |
| `VersionCheck.AppliedUpdateConverges` | containers/airwaves-manager/src/adapters/updater.rs:246-437 | for a manifest with both images named in the compose file, URLs for the config files, and tags that Docker reports and that are absent, suffixed or equal to the version, a successful apply of any selection that touches the stack makes the next check report no update for the images and for the selected files |
| `Watchdog.RunsKeepInv` | containers/airwaves-manager/src/adapters/updater.rs:373-501 | the invariant of the shared status file holds over every interleaving of applies, unit starts, updater steps, trapped exits, kills and polls |
| `Watchdog.ActiveUnitRefusesApplies` | containers/airwaves-manager/src/adapters/updater.rs:142-149 | while the unit is active, requests written and passed checks left over equal the checks passed before plus those that systemd did not answer |
| `Watchdog.OnlyBlindChecksQueue` | containers/airwaves-manager/src/adapters/updater.rs:373-374 | from an active unit with no apply past its check, a request can be written if and only if there have been more unanswered checks than requests |
| `Watchdog.ActiveUpdateIsNotOverwritten` | containers/airwaves-manager/src/adapters/updater.rs:509-510 | as long as systemd answers every check, an active unit keeps its request, and the file shows queued only if it did at the start |
| `Watchdog.BlindCheckOverwrites` | containers/airwaves-manager/src/adapters/updater.rs:142-149 | a check that is not answered lets a second request replace that of a live updater, in any phase |
| `Watchdog.SuccessIsDone` | armbian/userpatches/extensions/airwaves-os/scripts/airwaves-update:577-580 | over every run the file says done exactly with success |
| `Watchdog.TerminalWrites` | armbian/userpatches/extensions/airwaves-os/scripts/airwaves-update:62-121 | a success is written as done; a failure or a rollback names the phase in which it happened |
| `Watchdog.VerdictIsSound` | containers/airwaves-manager/src/adapters/updater.rs:470-501 | an answered poll turns running into failed only when no updater runs, the last one left no terminal status, and the queued window is over |
| `Watchdog.LiveUpdaterDeclaredDeadExactly` | containers/airwaves-manager/src/adapters/updater.rs:478-481 | over every interleaving, a poll declares a live updater dead if and only if the file shows progress and systemd gives no answer |
| `Watchdog.QueuedIsNeverDeclaredDead` | containers/airwaves-manager/src/adapters/updater.rs:478-481 | no poll changes anything in the queued window |
| `Watchdog.DeadUpdaterIsReportedExactly` | containers/airwaves-manager/src/adapters/updater.rs:478-498 | a stopped updater is reported if and only if the file is past the queued window |
| `Watchdog.KilledUpdateIsReported` | armbian/userpatches/extensions/airwaves-os/scripts/airwaves-update:96-121 | after a SIGKILL in a later phase the first poll after the unit has stopped leaves failed, whatever polls came before, answered by systemd or not, and it stays until a new update is requested |
| `Watchdog.TerminalStatusStays` | containers/airwaves-manager/src/adapters/updater.rs:470-501 | a status that is not running stays as it is until a new update is requested |
| `Watchdog.KilledInQueuedWindowIsNeverReported` | containers/airwaves-manager/src/adapters/updater.rs:478-481 | an updater killed before its first write stays queued under any number of polls |
| `Watchdog.UnansweredPollIsUnsound` | containers/airwaves-manager/src/adapters/host.rs:146-162 | such a state is reached in every phase past the queued window |
| `Watchdog.SplitPollOverwritesSuccess` | containers/airwaves-manager/src/adapters/updater.rs:470-498 | with reading and checking as separate steps a poll can overwrite a finished update |
| `Unattended.ListTargets` | armbian/userpatches/extensions/airwaves-os/scripts/airwaves-install:173-192 | the list holds exactly the present, fixed, whole, non-virtual disks other than the source, each once |
| `Unattended.ResolveTarget` | armbian/userpatches/extensions/airwaves-os/scripts/airwaves-preconfig:88-113 | a selector resolves to the only candidate, a largest one, or a listed path, and fails exactly when there is none |
| `Unattended.InstalledConfigArmsNothing` | armbian/userpatches/extensions/airwaves-os/scripts/airwaves-install:866-884 | whatever the template and the provisioning config say, the config written to the target has every destructive flag off |
| `Unattended.InstalledConfigSettings` | armbian/userpatches/extensions/airwaves-os/scripts/airwaves-install:866-884 | host name, channel, time zone and keys of the installed system are the provisioned ones, or cleared when nothing is stated; every other setting but Wi-Fi and the flags is the template's |
| `Unattended.InstalledConfigWifi` | armbian/userpatches/extensions/airwaves-os/scripts/airwaves-install:866-884 | Wi-Fi name and password are the provisioned ones, or cleared, and other Wi-Fi settings stay the template's |
| `Unattended.InstalledConfigIsTemplate` | armbian/userpatches/extensions/airwaves-os/scripts/airwaves-install:866-884 | without a provisioning config every setting but the flags is the template's |
| `Unattended.EraseIsSafe` | armbian/userpatches/extensions/airwaves-os/scripts/airwaves-tui:499-523 | over every run, with disks appearing, vanishing, being mounted and taking over names between any two steps, an erase has in its history, all in one boot, the dual-key gate in first setup with the removable test of its mode, then a listing that shows the target, then a preflight that passes |
| `InstallGate.EraseNeedsConsent` | armbian/userpatches/extensions/airwaves-os/scripts/airwaves-preconfig:112-175 | at the moment a disk can be erased, the config that armed it held the flag and the second key, in first setup, with the source known and a boot medium that fits the mode |
| `InstallGate.GateExactly` | armbian/userpatches/extensions/airwaves-os/scripts/airwaves-preconfig:112-175 | the gate opens if and only if the system is in first setup, the second key is there, the source is known, and a flag fits the boot medium |
| `InstallGate.FlagTrueExactly` | armbian/userpatches/extensions/airwaves-os/scripts/airwaves-preconfig:121-123 | a flag is set by the boolean, or by the text true with any number of line ends after it |
| `InstallGate.SelectorExactly` | armbian/userpatches/extensions/airwaves-os/scripts/airwaves-preconfig:152-154 | a stated target selector is taken without its line ends; nothing, an empty text and null mean auto |
| `InstallGate.OddSelectorResolvesNothing` | armbian/userpatches/extensions/airwaves-os/scripts/airwaves-preconfig:84-112 | a target selector that is no text resolves to no disk |
| `InstallGate.ArmedDiskArms` | armbian/userpatches/extensions/airwaves-os/scripts/airwaves-preconfig:112-150 | a system on a fixed disk that reads its own config arms a self-install if and only if the disk counts as armed |
| `InstallGate.OwnConfigExactly` | armbian/userpatches/extensions/airwaves-os/scripts/airwaves-preconfig:112-150 | which systems the bound on self-installs is about: those that read their own config, other than live ones on a fixed disk that is not x86 |
| `InstallGate.SetUpSystemStaysShut` | armbian/userpatches/extensions/airwaves-os/scripts/airwaves-preconfig:112-175 | once a running system is marked as set up, no config passes the gate |
| `InstallGate.UnpluggedSource` | armbian/userpatches/extensions/airwaves-os/scripts/airwaves-preconfig:60-83 | pulling the boot disk stops a system if and only if it is not a live one |
| `InstallGate.PowerCycle` | armbian/userpatches/extensions/airwaves-os/scripts/airwaves-tui:509-545 | a power cycle to any connected disk is possible, changes no disk and disarms |
| `InstallGate.GivingUpDisarms` | armbian/userpatches/extensions/airwaves-os/scripts/airwaves-tui:509-545 | cancelling, or a failing installer, is possible in every stage, disarms, and changes no further disk |
| `Unattended.ErasedDiskExactly` | armbian/userpatches/extensions/airwaves-os/scripts/airwaves-install:312-326 | the erased disk is removable if and only if, since the listing, the last disk to be plugged in under the target's name was a removable one; it is the disk found in the list or took the name since; it is the one that passed preflight, and then whole, unmounted at preflight and not the source, or took the name since |
| `Unattended.ReusedNameErasesRemovable` | armbian/userpatches/extensions/airwaves-os/scripts/airwaves-tui:509-523 | a run that meets this condition: during the countdown the fixed disk goes away, a removable one takes its name, passes preflight and is about to be erased |
| `InstallGate.StickWorldIsReady` | armbian/userpatches/extensions/airwaves-os/scripts/airwaves-tui:509-523 | there is such a world: a live stick, one fixed disk and one removable disk |
| `Unattended.StepDisarms` | armbian/userpatches/extensions/airwaves-os/scripts/airwaves-tui:538-542 | no step arms a disk, and the marker of first setup, an erase and a finished install disarm exactly their disks |
| `Unattended.SelfInstallLowersExactly` | armbian/userpatches/extensions/airwaves-os/scripts/airwaves-tui:538-542 | a self-install leaves exactly the armed disks of the moment it was armed without its target and its boot disk, so it lowers their number if and only if one of the two was armed then |
| `Unattended.LoweringIsBounded` | armbian/userpatches/extensions/airwaves-os/scripts/airwaves-tui:538-542 | over every run, whatever configs are read, the self-installs that lower the number are at most as many as there were armed disks |
| `Unattended.SelfInstallsAreBounded` | armbian/userpatches/extensions/airwaves-os/scripts/airwaves-tui:537-542 | over every run in which each boot reads its own config, every self-install lowers the number, so there are at most as many as armed disks |
| `Unattended.ForeignConfigLoops` | armbian/userpatches/extensions/airwaves-os/scripts/airwaves-preconfig:176-181 | when the config found belongs to another disk, self-installs between two disks that are not armed go back and forth any number of times, and none lowers the number |
| `InstallGate.LoopWorldIsReady` | armbian/userpatches/extensions/airwaves-os/scripts/airwaves-preconfig:176-181 | there is such a world: two fixed disks and a stick |
| `Reconciler.Docker.Prune` | containers/airwaves-manager/src/adapters/docker.rs:228-281 | the loop over the listing removes the managed app containers whose app is not recorded, up to the first removal that fails |
| `Reconciler.Docker.Reconcile` | containers/airwaves-manager/src/main.rs:244-302 | one pass equals the specification function of containers, records, catalog and Docker's answers, a second listing that fails counting as no containers |
| `Reconciler.UnmanagedUntouchedExactly` | containers/airwaves-manager/src/main.rs:270-301 | a container that is not a managed app container survives untouched if and only if the second listing answers, or no installation of a recorded catalog app of its name gets as far as removing the old container |
| `Reconciler.PrunedExactly` | containers/airwaves-manager/src/adapters/docker.rs:228-281 | full pruning takes exactly the containers with the prefix and our label, other than manager and gateway, whose app, by label or else by name, has no record |
| `Reconciler.NoUnrecordedContainer` | containers/airwaves-manager/src/main.rs:253-266 | when pruning lists and removes, no managed app container is unrecorded after the pass, whatever the second listing and the installations do |
| `Reconciler.RecordedAppRuns` | containers/airwaves-manager/src/main.rs:280-301 | a recorded catalog app whose installations succeed has its container: the one it had, if listed, or a new one with the recorded values over the defaults |
| `Reconciler.RecordedValuesReachContainer` | containers/airwaves-manager/src/adapters/docker.rs:575-583 | for every app but acarsdec, each recorded value that is not internal reaches a recreated container, over the default |
| `Reconciler.AcarsdecContainer` | containers/airwaves-manager/src/adapters/docker.rs:19-66 | acarsdec gets no gain alias and no internal key, and an RTL radio exactly by its serial |
| `Reconciler.AcarsdecGain` | containers/airwaves-manager/src/adapters/docker.rs:49-67 | acarsdec's gain: a name of the automatic gain becomes -10, a blank one goes, and any other stays |
| `Reconciler.AcarsdecKeepsOthers` | containers/airwaves-manager/src/adapters/docker.rs:19-46 | every other variable of acarsdec reaches its container as it is |
| `Reconciler.InternalKeysStayOut` | containers/airwaves-manager/src/adapters/docker.rs:575-583 | no exact id and no USB access flag reaches a container |
| `Reconciler.NativeRadioIsTheRecordedExactly` | containers/airwaves-manager/src/adapters/docker.rs:26-46 | a natively opened acarsdec radio whose recorded id names a connected device of its serial can open exactly the recorded tuner if and only if no other connected device has that serial |
| `Reconciler.SecondPassChangesNothing` | containers/airwaves-manager/src/main.rs:244-302 | when Docker answers and the installations succeed, a second pass changes nothing |

## Left out

- AppLifecycle.SettledRunsStayExclusive: each handler is one step; two installs that validate against the same config at the same time are not modelled.
- AppLifecycle.CoherentRunsStayExclusive: the connected devices stay the same during a run, because a replugged device gets a new id.
- AppLifecycle.AppHandlers.Submit: the image tag, names, categories and ports of the records are not modelled, nor is the environment that Docker itself gives the container.
- AppLifecycle.AppHandlers.MigrateSdrAssignmentMetadata: recreating the containers of changed records is not modelled.
- SdrEnrich.EnrichmentKeepsTuners: the tuners of a reference are those of the annotation rule (by id, otherwise by serial); what acarsdec's container can open is the subject of `Reconciler.NativeRadioIsTheRecordedExactly`.
- Sdr.ValidateAppSdrAssignments: the four refusals are classes; their wording, and which of several conflicting pairs is named, is left out.
- ConfigBackup.RedactSecrets: the JSON tree that Rust owns and changes in place is a value going in and a value coming out; there is no aliasing to capture.
- MessageWindow.MessageBuffer.Store: statistics counters, message parsing and forwarding over HTTP are left out.
- Updater.UpdateRun.PerformUpdate: copies and status writes succeed, temporary `.new` files, `config.json`, file modes, the retained timestamped snapshots, the daemon reload and dry-run mode are left out, and host files target neither the backup directory nor the request (`LeavesBackup`); signals are the subject of `Watchdog`.
- Updater.UpdateRun.PinImageTag: the compose file is a map from container to image reference, and an image or tag with characters special to sed is not modelled.
- VersionCheck.Check: severities, major upgrades, OS packages and an unreachable manifest are left out; semantic versions are any irreflexive order.
- VersionCheck.AppliedUpdateConverges: the compose file that is deployed names both images as `image:tag`, and neither name occurs in the other's reference.
- Watchdog.VerdictIsSound: a poll is one step and systemd answers it; `UnansweredPollIsUnsound` and `SplitPollOverwritesSuccess` show what happens otherwise. Percentages, log lines and timestamps are left out.
- Slots.SlotManager.DoRollback: the running root carries a slot label, and one `grub-editenv` write is atomic; the u-boot and Raspberry Pi back ends are left out, since the boot script that reads their state is not in the repository.
- Layout.PartitionX86Ab: sizes are in MiB, without parted's sector alignment; the single-root layouts are left out.
- Unattended.ErasedDiskExactly: the boot disk, while connected, is always resolved to its current name, and an installation writes to the disk it has erased.
- Unattended.SelfInstallsAreBounded: marking the source after a successful self-install succeeds, a live medium is a removable disk or boots on x86, and unattended installs from a removable medium may repeat when the medium stays in.
- Reconciler.Docker.InstallApp: port checks, pulling, networks and starting are three outcomes (refused before the old container is removed, broken after it, done).
- Reconciler.Docker.Prune: a listing is complete when it answers; a removal that Docker reports as failed leaves the container.
- Reconciler.Docker.Reconcile: the migrations before the pass are the subject of `AppLifecycle`, and the repair of recorded acarsdec output settings is left out.
- USB paths found by scanning sysfs for a serial, and the device mappings and cgroup rules of containers, are left out.
- Forwarding and fleet configuration, hostname, time zone, Wi-Fi connection and remote command handlers are left out: checks of one branch.
- Console drawing, release manifests and the catalog's contents are data or user interface and are left out.
