# Verified models of the knowledge-base logs, protocols and archives

This project models the parts of the system that must hold over every log, run or tree: the
crash-recovery protocol of exchange imports, the validators of the append-only logs, canonical JSON,
the cache keys of the generated views, backup and exchange archives, the portable tree synchroniser,
the synthetic workspace generator and the change-risk classifier.

`dafny verify dfyconfig.toml` checks everything.

## How it is organised

- `Prelude`, `Listing`: sorting, de-duplication, selection, sorted listings of names.
- `ExchangeImport`, `ExchangeImportRecovery`, `ExchangeImportAnswers`, `ExchangeImportService`,
  `GuardianImports`: the import journal `prepared -> staged -> published -> complete` as steps over
  {journal, stage, target}, with a crash possible between any two steps, inside recovery too; what each
  answer means on the disk; and the checks Guardian runs afterwards.
- `BundlePaths`, `ExchangePackage`, `ExchangePackageChecks`, `ExchangePackageReader`,
  `ExchangePublication`, `ExchangePackageExamples`: extraction of an archive, the checks of the package
  it becomes, and which archives an import can bring all the way.
- `AliasForest`, `IdentityCorrections`, `IdentityReplay`, `IdentityCorrectionExamples`: merges, aliases
  and splits of registry papers.
- `AgentTaskRegistry`, `AgentTasks`, `AgentTaskRules`, `AgentTaskPaths`, `LineageGraph`,
  `AgentTaskLog`, `AgentTaskDiagnostics`, `AgentTaskExamples`: Agent Task chains and their lineage.
- `GuardianDispositions`, `GuardianDispositionRules`, `GuardianDispositionDiagnostics`: disposition paths
  of Guardian findings.
- `Records`, `PrimaryBundles`, `PrimaryBundleRules`, `PrimaryBundleDiagnostics`: revision bundles of
  primary papers.
- `CanonicalText`, `CanonicalEscapes`, `CanonicalJson`, `CanonicalGrammar`, `CanonicalDecoding`,
  `CanonicalIdentity`: the restricted RFC 8785 printer, the grammar of its output, a decoder for it, and
  the identity its text is.
- `ObsidianViews`, `ObsidianFacts`, `ObsidianWatermarks`, `ObsidianSoundness`, `ObsidianProjection`: paper
  views, the Papers index, and their watermarks as cache keys.
- `BackupArchive`, `BackupPlan`, `BackupContents`, `BackupInspection`, `BackupInspected`, `BackupPlanning`,
  `BackupRuns`, `BackupRestored`, `BackupRoundTrip`: backup archives, from plan to restored workspace.
- `ExchangeExport`, `ExchangeBundle`, `ExchangeContents`, `ExchangeValidated`, `ExchangeAgreement`,
  `ExchangeConflicts`, `ExchangeAcceptance`, `ExchangeBuild`: exchange bundles, from export to re-import.
- `SkillTree`, `SkillLines`, `SkillSync`, `SkillWrite`, `SkillSyncResult`, `SkillSyncRun`: the tree
  synchroniser.
- `OperationalProfiles`, `OperationalGenerator`, `OperationalEvents`: the synthetic workspace.
- `DiffStream`, `RiskClassifier`, `RiskSelection`, `RiskReasons`: the change stream, the levels selected
  for it and the reasons reported.

Loops over dictionaries, lists and directories are methods whose results are tied to specification
functions; the lemmas state what those functions mean. What a check accepts, and what an answer, a plan or
a selection holds, is also spelled out without those functions, field by field or file by file, and proved
equivalent. Digests, validators, serialisers and pattern matchers are function-valued parameters. A lemma
assumes a digest injective only where it says so. Records are typed data of the shape their schemas demand.
Time is an integer or a string parameter. File contents are sequences, a directory is a finite map from
paths to contents with a set of directories, and atomic writes and renames are single steps.

## What the proofs found

- A recovery that dies after removing the stage of a `staged` import and before rewriting its journal
  parks the import for manual resolution. `LostExactlyByCut` shows this is the only way to lose one before
  it is published, and names the step by its position in the recovery.
- Some archives pass the bundle checks and are refused by the package checks after publication, with
  nothing cut off: the walk over the package adds a placeholder of twelve bytes to every directory, so a
  directory of more than 228 bytes is too long under the limit of 240; and a name such as
  `sources/sha256/a//b` denotes a path that is not the declared name. Such a package is parked, and every
  later import fails at its first check (`MisfitParks`, `RefusedPackageBlocks`). `PackageSoundExactly`
  gives the exact condition on the archive, `LongDirectoryDoesNotFit` and `StrayNameDoesNotFit` two
  inputs, `ManualExactlyByCutOrMisfit` the exact set of ways an import comes to need help, and
  `ExportedArchiveFits` shows that archives written by an export are not among them.
- A source-inclusive backup of a workspace without papers is planned, written and inspected without
  complaint, and no restore accepts it, because the restore insists on source bytes
  (`EmptyBackupIsRefused`). `RestoreUndoesBackup` gives the exact condition under which a backup comes back.
- The Agent Task validator reads the decision of a predecessor's head after comparing only its status;
  a head with the expected status and no decision makes it raise instead of report.
  `AgentTaskChainDiagnostics` fails exactly there, and `AgentTaskExamples` gives such a log.
- The synchroniser's temporary names can collide with source names. `SyncExactly` gives the exact
  condition, and `SecondRunCanFail` a source whose second run fails after a successful first one.
- A missing event keeps the underscore of its default name, is therefore not recognised, and selects the
  strongest levels (`MissingEventFailsClosed`).
- Merging and splitting restores the registry exactly when all merged papers were canonical
  (`MergeThenSplitRestores`); `SplitDoesNotRestoreAlias` gives a log where one was an alias before.

## Model

| member | source | states |
|---|---|---|
| ExchangeImport.ApplyIsLocal | src/research_kb/exchange_import.py:292-340 | at every crash point an import has changed its own journal, stage and target only, and only when all three were empty |
| ExchangeImport.ApplySlot | src/research_kb/exchange_import.py:303-340 | at each crash point after the first write the slot of this import is one of the listed combinations; it has a target from the rename on, refused exactly when the package does not pass its own checks |
| ExchangeImport.StartedImportIsNew | src/research_kb/exchange_import.py:293-302 | an import that writes at all finds every published package readable and none made from its archive |
| ExchangeImport.SlotTraceIsLocal | src/research_kb/exchange_import.py:395-433 | settling one journal never touches another import, removes a journal or changes a target, at any intermediate disk |
| ExchangeImport.RecoverySettlesEachSlot | src/research_kb/exchange_import.py:390-435 | a finished pass over distinct journals settles exactly those, each as if it were alone |
| ExchangeImport.EveryRunIsSound | src/research_kb/exchange_import.py:292-435 | for every reader, every slot is sound after every interleaving of imports, crashes, recoveries and dry runs, with crashes inside recovery |
| ExchangeImportRecovery.EveryCrashPointSettles | src/research_kb/exchange_import.py:303-433 | from every crash point one uninterrupted recovery discards the import before the rename; from the rename on it completes it if the published package passes its own checks, and otherwise asks for manual resolution and keeps the package |
| ExchangeImportRecovery.CrashPointNeedsHelp | src/research_kb/exchange_import.py:303-433 | at a crash point of an import recovery gives up exactly when the import was renamed into place and its package is refused |
| ExchangeImportRecovery.PublishedIsPermanent | src/research_kb/exchange_import.py:330-433 | no operation on any disk, finished or cut off, removes or alters a published package |
| ExchangeImportRecovery.PublishedStaysOverRuns | src/research_kb/exchange_import.py:330-433 | a package published by a prefix of a run is still there, unchanged, at the end of the run |
| ExchangeImportRecovery.PublishedArchivesDiffer | src/research_kb/exchange_import.py:437-442 | over any run two published packages carry the digests of different archives |
| ExchangeImportRecovery.RecoverTraceProgress | src/research_kb/exchange_import.py:395-433 | after any number of steps of a pass each visited slot is exactly where its own settling has come to, counted from the steps of the journals before it |
| ExchangeImportRecovery.LosingStep | src/research_kb/exchange_import.py:410-433 | one operation loses an import if and only if it is a recovery that dies at one step of its trace: two after the steps its decisions on the disk it starts from take for the journals visited before, when the import is staged, has a stage and no target there |
| ExchangeImportRecovery.LostExactlyByCut | src/research_kb/exchange_import.py:390-433 | over every run an import is lost if and only if some recovery in the run died at exactly that step |
| ExchangeImportRecovery.RefusedStep | src/research_kb/exchange_import.py:330-340 | one operation makes a slot refused if and only if it is an import that reaches the rename with a package its own checks refuse |
| ExchangeImportRecovery.RefusedExactlyByArchive | src/research_kb/exchange_import.py:303-433 | over every run a published package is refused if and only if some import in the run did that |
| ExchangeImportRecovery.RefusedPackageBlocks | src/research_kb/exchange_import.py:342-351 | a refused package stops every later import before its first write |
| ExchangeImportRecovery.OneRefusedPackage | src/research_kb/exchange_import.py:292-442 | no run publishes two refused packages |
| ExchangeImportRecovery.ManualExactlyFor | src/research_kb/exchange_import.py:418-430 | in every run recovery asks for manual resolution of an import exactly when it was lost by that one cut or its published package is refused by its own checks |
| ExchangeImportRecovery.StagedImportCanBeLost | src/research_kb/exchange_import.py:410-417 | from any staged, unpublished import a recovery loses it at that step and at no other, so the exception is real |
| ExchangeImportRecovery.DryRunReportsRealActions | src/research_kb/exchange_import.py:390-435 | on any disk a dry run reports exactly the actions the real run takes |
| ExchangeImportRecovery.SecondRecoveryIsNoOp | src/research_kb/exchange_import.py:390-435 | on any disk a second recovery changes nothing but times and reports again exactly what the first could not settle |
| ExchangeImportService.ImportService.SetJournal | src/research_kb/exchange_import.py:450-462 | rewrites phase, time and outcome of one journal and nothing else |
| ExchangeImportService.ImportService.ListImports | src/research_kb/exchange_import.py:342-351 | reads every published package in name order; the first unreadable one is an error |
| ExchangeImportService.ImportService.FindExistingImport | src/research_kb/exchange_import.py:437-442 | returns the first import whose archive digest matches |
| ExchangeImportService.ImportService.ApplyLocked | src/research_kb/exchange_import.py:292-340 | the disk an import leaves when it dies after a number of writes is that disk of its trace; an answer it lives to give meets its own condition on the disk and the archive, as ExchangeImportAnswers.ApplyAnswers states it |
| ExchangeImportAnswers.ExistingMeans | src/research_kb/exchange_import.py:342-351 | the search for an earlier import fails exactly when some published package does not read, and otherwise names the first one with the digest of the archive, if any |
| ExchangeImportAnswers.ImportedIsOnDisk | src/research_kb/exchange_import.py:303-340 | an uncut import answers success with an id if and only if it is its own, was free, and afterwards holds a package that reads with the digest of the archive under a complete, successful journal |
| ExchangeImportAnswers.ApplyAnswers | src/research_kb/exchange_import.py:292-340 | every answer of an uncut import: no change exactly when a package that reads already carries the archive, under the id of that package and on an untouched disk; success exactly as ImportedIsOnDisk says; each failure exactly under its own condition, the checks in order |
| ExchangeImportService.ImportService.SettleOne | src/research_kb/exchange_import.py:395-433 | one journal is settled as its decision says, or previewed without a write |
| ExchangeImportService.ImportService.RecoverLocked | src/research_kb/exchange_import.py:390-435 | a recovery cut off after any number of writes leaves the matching disk of the recovery trace; a dry run changes nothing |
| BundlePaths.NormalIsPlace | src/research_kb/exchange_import.py:849-866 | exactly the names without empty or dot components are the paths they denote |
| BundlePaths.ComponentsJoin | src/research_kb/exchange_import.py:849-866 | splitting a joined path gives its parts back |
| BundlePaths.JoinComponents | src/research_kb/exchange_import.py:849-866 | joining the pieces of a name gives the name back |
| ExchangePackageChecks.PackageSoundExactly | src/research_kb/exchange_import.py:660-726 | a supported archive that extracts makes a package that passes its own checks if and only if no name has an empty or dot component, every directory above an entry is at most the path limit minus twelve bytes, and there is room for the receipt |
| ExchangePackageChecks.StrayNameRefused | src/research_kb/exchange_import.py:685-692 | an archive with an empty or dot component in some name is refused once it is published |
| ExchangePackageReader.ExtractTo | src/research_kb/exchange_import.py:146-181 | the loop extracts every entry, or fails exactly when one entry lands on or below another |
| ExchangePackageReader.ScanPackage | src/research_kb/exchange_import.py:748-810 | the walk over a package directory stays within every limit, or fails |
| ExchangePackageReader.ReadValidatedPackage | src/research_kb/exchange_import.py:660-726 | reads the receipt of a package exactly when the package passes its checks and the expected archive digest |
| ExchangePublication.PublishedSoundExactly | src/research_kb/exchange_import.py:303-340 | the package an import publishes passes its checks if and only if its archive fits |
| ExchangePublication.ImportSettlesByFit | src/research_kb/exchange_import.py:303-433 | from every crash point of an import the outcome of one recovery is decided by the rename and by whether the archive fits |
| ExchangePublication.ManualExactlyByCutOrMisfit | src/research_kb/exchange_import.py:292-435 | over every run recovery asks for manual resolution of an import if and only if a recovery died at that one step or an import published it from an archive that does not fit |
| ExchangePublication.MisfitParks | src/research_kb/exchange_import.py:303-435 | one import of a supported archive that does not fit is parked with nothing cut off, and from then on no import gets as far as its first write |
| ExchangePackageExamples.LongDirectoryDoesNotFit | src/research_kb/exchange_import.py:763-763 | an archive with an unlisted source entry in a directory of 229 bytes is within the limits, supported and extracts, and does not fit |
| ExchangePackageExamples.StrayNameDoesNotFit | src/research_kb/exchange_import.py:685-692 | an archive with a source entry under a name that has an empty component is supported and does not fit |
| ExchangePackageExamples.LongDirectoryParks | src/research_kb/exchange_import.py:292-435 | importing such an archive parks it, with no recovery cut off |
| ExchangePackageExamples.ExportedArchiveFits | src/research_kb/exchange.py:274-359 | every archive an export writes extracts, and fits whenever there is room for the receipt |
| ExchangePackageExamples.DefaultRoom | src/research_kb/exchange_import.py:74-84 | under the default limits there is room for any receipt within the entry limit |
| GuardianImports.ImportDiagnostics | src/research_kb/guardian.py:1488-1589 | the import checks, with a reader of their own, are silent exactly on clean disks |
| GuardianImports.StatusMeans | src/research_kb/exchange_import.py:434-435 | recovery answers success exactly when no journal needs manual resolution |
| GuardianImports.SuccessfulRecoveryIsClean | src/research_kb/guardian.py:1488-1589 | after a recovery that answers success the import checks are silent if and only if every slot was repairable before |
| GuardianImports.RecoveredRunIsClean | src/research_kb/guardian.py:1488-1589 | over every run recovery answers success if and only if nothing was lost and no published package is refused; it leaves nothing to find if and only if, besides, Guardian's own limits accept every published package |
| GuardianImports.OneReaderIsClean | src/research_kb/guardian.py:1488-1589 | when Guardian reads with the limits of the service, a recovery leaves it nothing to find if and only if it answers success |
| AliasForest.AliasKeepsForest | src/research_kb/identity_corrections.py:120-136 | aliasing a paper closes a cycle exactly when the retained paper already leads to it |
| AliasForest.CollapseKeepsForest | src/research_kb/identity_corrections.py:92-117 | pointing any set of papers at one root keeps the forest |
| AliasForest.DetachKeepsForest | src/research_kb/identity_corrections.py:92-117 | making papers canonical again keeps the forest |
| AliasForest.CanonicalIdempotent | src/research_kb/identity_corrections.py:139-147 | the canonical paper of a canonical paper is itself |
| AliasForest.FollowsIntoCycle | src/research_kb/identity_corrections.py:120-136 | the search from one paper stops and reports a cycle exactly when no root is reachable |
| AliasForest.RequireAcyclic | src/research_kb/identity_corrections.py:120-136 | the check passes exactly when every known paper reaches a root |
| AliasForest.Resolve | src/research_kb/identity_corrections.py:139-147 | resolution stops; it answers the canonical paper when there is one, and its cycle branch needs a cycle |
| IdentityCorrections.StepKeepsForest | src/research_kb/identity_corrections.py:92-133 | a correction breaks the forest exactly when it is an alias whose target leads to its subject; merges and splits never do |
| IdentityCorrections.ForestAfterEveryPrefix | src/research_kb/identity_corrections.py:86-117 | an accepted log leaves an alias forest over the known papers after every prefix |
| IdentityCorrections.CanonicalIdsAreKnownRoots | src/research_kb/identity_corrections.py:86-147 | after every prefix each canonical id is a known paper and its own canonical id |
| IdentityCorrections.AcceptedPrefix | src/research_kb/identity_corrections.py:14-70 | every prefix of an accepted log is accepted |
| IdentityCorrections.HeadDeterminesHistory | src/research_kb/identity_corrections.py:28-36 | with an injective digest two accepted logs ending in the same record are equal |
| IdentityCorrections.MergeThenSplitRestores | src/research_kb/identity_corrections.py:48-59 | splitting off every non-retained subject restores the registry exactly when the merge joined papers that were all canonical |
| IdentityCorrectionExamples.SplitDoesNotRestoreAlias | src/research_kb/identity_corrections.py:92-117 | a concrete accepted log: an alias is merged, its split is accepted, and the registry is not what it was |
| IdentityCorrections.LogFaultsEmpty | src/research_kb/identity_corrections.py:14-70 | the record pass is silent exactly on well-formed logs |
| IdentityCorrections.RecordPass | src/research_kb/identity_corrections.py:22-62 | one turn of the loop reports exactly the faults of its record |
| IdentityCorrections.Apply | src/research_kb/identity_corrections.py:92-117 | one correction rewrites the alias map and the library statuses as the replay does |
| IdentityCorrections.Project | src/research_kb/identity_corrections.py:86-117 | the replay raises on the first correction that closes a cycle and otherwise returns the registry, which IdentityReplay reads off the log by position |
| IdentityCorrections.IdentityCorrectionDiagnostics | src/research_kb/identity_corrections.py:14-70 | the validator is silent exactly on accepted logs and reports every fault once |
| IdentityCorrections.ProjectRegistryIdentity | src/research_kb/identity_corrections.py:73-83 | a log with diagnostics is refused; otherwise every paper has the status and the canonical id of IdentityReplay.LibraryStatusByPosition and CanonicalIdByPosition |
| IdentityReplay.LibraryStatusByPosition | src/research_kb/identity_corrections.py:86-117 | the status of a paper is archived or tombstoned if and only if the last lifecycle correction of it archives or tombstones it, and active if and only if there is none |
| IdentityReplay.CanonicalIdByPosition | src/research_kb/identity_corrections.py:86-147 | the canonical id of a paper is its own if it was never joined, was split off last or was retained by its last merge, and otherwise that of the paper its last merge or alias names |
| AgentTasks.ChainIsTransitionPath | src/research_kb/agent_tasks.py:13-18 | a sound chain is a path of the transition table from created, at most four revisions long, with only the last terminal; AgentTaskPaths.TaskPathsExactly lists the paths |
| AgentTasks.ChainFreezes | src/research_kb/agent_tasks.py:217-273 | creation data never changes; lease and staged result never change once set; time never runs back |
| AgentTasks.ChainPrefix | src/research_kb/agent_tasks.py:241-273 | prefixes of a sound chain are sound |
| AgentTasks.HeadDeterminesChain | src/research_kb/agent_tasks.py:241-262 | with an injective digest the head of a task fixes all its earlier revisions |
| AgentTasks.StepFaultsEmpty | src/research_kb/agent_tasks.py:241-273 | the checks of one step are silent exactly on sound steps |
| AgentTaskPaths.TaskPathsExactly | src/research_kb/agent_tasks.py:13-18 | a sequence of statuses belongs to some sound chain if and only if it is one of eleven, listed one by one |
| AgentTaskPaths.EveryPathAccepted | src/research_kb/agent_tasks.py:217-354 | each of the eleven is the whole history of an accepted log |
| AgentTaskPaths.RevisionContinues | src/research_kb/agent_tasks.py:275-328 | a task sent back for revision and the task that takes it up make an accepted log, linked both ways |
| AgentTaskRules.StateRules | src/research_kb/agent_tasks.py:114-214 | a state passes its checks if and only if creation data, lease, staged result, decision, feedback, successor, applied job and reason are what its status and kind ask for, spelled out status by status |
| AgentTaskRules.ChainInOrder | src/research_kb/agent_tasks.py:241-273 | every state of a sound chain is so |
| AgentTaskRules.LineageRules | src/research_kb/agent_tasks.py:275-328 | a first state with a predecessor passes the lineage check if and only if the head of that task names it back, with the same basis and the required status and feedback |
| AgentTaskRegistry.RegistryHistory | src/research_kb/agent_task_registry.py:70-260 | in which registry versions each kind is registered, and in which only announced |
| AgentTaskRegistry.DefinitionsStay | src/research_kb/agent_task_registry.py:70-260 | once a kind is available its contract and classes never change |
| LineageGraph.LeadsIntoCycle | src/research_kb/agent_tasks.py:330-352 | the predecessor search stops and reports exactly the tasks that lead into a cycle |
| LineageGraph.CommonAncestorComparable | src/research_kb/agent_tasks.py:275-352 | two tasks with a common ancestor lie on one line when predecessors are injective |
| AgentTaskLog.LineageInjective | src/research_kb/agent_tasks.py:275-328 | in an accepted log no task has two successors |
| AgentTaskLog.LineageChains | src/research_kb/agent_tasks.py:275-352 | in an accepted log tasks form disjoint finite chains; every predecessor is terminal |
| AgentTaskLog.OneLiveTaskPerChain | src/research_kb/agent_tasks.py:275-352 | two live tasks never descend from a common ancestor |
| AgentTaskLog.LogFaultsEmpty | src/research_kb/agent_tasks.py:217-354 | the four passes together are silent exactly on accepted logs |
| AgentTaskDiagnostics.CheckCycles | src/research_kb/agent_tasks.py:330-352 | the cycle pass reports exactly the tasks whose predecessors never end |
| AgentTaskDiagnostics.AgentTaskChainDiagnostics | src/research_kb/agent_tasks.py:217-354 | silent exactly on accepted logs, every fault once; fails exactly when a predecessor has the expected status but no decision to read; AgentTaskRules and AgentTaskPaths say what an accepted log holds and that every listed history is accepted |
| AgentTaskExamples.MissingDecisionBreaks | src/research_kb/agent_tasks.py:275-328 | a concrete two-task log in which the lineage check reads a decision that is not there |
| AgentTaskExamples.ValidateUndecided | src/research_kb/agent_tasks.py:217-354 | on that log the validator raises, whatever the digests |
| AgentTaskDiagnostics.CurrentAgentTaskStates | src/research_kb/agent_tasks.py:357-367 | one current state per task; refused exactly when the log is not accepted |
| AgentTaskDiagnostics.OneCurrentStatePerTask | src/research_kb/agent_tasks.py:357-367 | every task has exactly one current state, the last revision of its chain |
| AgentTaskDiagnostics.OrderIndependent | src/research_kb/agent_tasks.py:217-367 | acceptance and current states do not depend on the order of the log |
| GuardianDispositions.PathUnique | src/research_kb/guardian_dispositions.py:69-88 | a set of dispositions has at most one linked path |
| GuardianDispositions.ExtendRetraces | src/research_kb/guardian_dispositions.py:76-88 | following unique successors retraces whatever path there is |
| GuardianDispositions.ExtendLinks | src/research_kb/guardian_dispositions.py:76-88 | what following successors yields is linked and, when it succeeds, visits everything |
| GuardianDispositions.FindingFaultsEmpty | src/research_kb/guardian_dispositions.py:69-95 | the pass over one finding is silent exactly when its records form one path of allowed statuses |
| GuardianDispositions.OneRootOnce | src/research_kb/guardian_dispositions.py:69-75 | where there is one root, no other record equals it, so leaving out the root by value leaves out that one record |
| GuardianDispositions.LogFaultsEmpty | src/research_kb/guardian_dispositions.py:40-95 | nothing is reported exactly when ids are distinct, every record names a real finding, and every finding has one path |
| GuardianDispositions.PredecessorOnSamePath | src/research_kb/guardian_dispositions.py:107-112 | a predecessor always belongs to the same finding, one step earlier |
| GuardianDispositions.HeadIsLastOfPath | src/research_kb/guardian_dispositions.py:107-112 | a record is a head exactly when it ends its finding's path |
| GuardianDispositions.OneHeadPerFinding | src/research_kb/guardian_dispositions.py:98-119 | every finding with a disposition has exactly one head |
| GuardianDispositions.TerminalIsHead | src/research_kb/guardian_dispositions.py:11-24 | terminal statuses occur only at heads |
| GuardianDispositionRules.StatusRules | src/research_kb/guardian_dispositions.py:11-24 | the statuses along a path are allowed if and only if they start and step as listed, literally |
| GuardianDispositionRules.DispositionPathsExactly | src/research_kb/guardian_dispositions.py:11-95 | a sequence of statuses is the path of some finding if and only if it starts and steps so, and then it is the path of an accepted log |
| GuardianDispositions.CurrentListsHeads | src/research_kb/guardian_dispositions.py:107-119 | the current view lists every head in order of finding |
| GuardianDispositions.OrderIndependent | src/research_kb/guardian_dispositions.py:40-119 | acceptance and the current view do not depend on the order of the log |
| GuardianDispositionDiagnostics.Follow | src/research_kb/guardian_dispositions.py:76-88 | the loop over remaining records computes the unique continuation, or stops where it forks |
| GuardianDispositionDiagnostics.GuardianDispositionDiagnostics | src/research_kb/guardian_dispositions.py:30-95 | silent exactly on accepted logs, every fault once |
| GuardianDispositionDiagnostics.CurrentGuardianDispositions | src/research_kb/guardian_dispositions.py:98-119 | the heads of an accepted log; otherwise the first diagnostic |
| PrimaryBundles.HeadDeterminesHistory | src/research_kb/primary_bundles.py:54-73 | with an injective digest the last revision fixes all revisions, the active id and the paper |
| PrimaryBundles.PrefixAccepted | src/research_kb/primary_bundles.py:44-98 | dropping the latest revisions and making the last remaining one active keeps acceptance |
| PrimaryBundles.PrefixNeedsReset | src/research_kb/primary_bundles.py:52-53 | without resetting the active id every proper prefix is refused |
| PrimaryBundles.ActiveIsLast | src/research_kb/primary_bundles.py:13-25 | the active entries of an accepted bundle are those of its last revision |
| PrimaryBundleRules.AcceptedInOrder | src/research_kb/primary_bundles.py:44-98 | a bundle is accepted if and only if it is numbered from one and linked, its last revision is active, everything in it is of its own paper, and no identifier of evidence, queue item or card unit is used twice, within a revision or across |
| PrimaryBundleRules.ActiveEntriesAre | src/research_kb/primary_bundles.py:13-25 | an entry is active if and only if it is the card, evidence or a queue item of the first revision with the active id |
| PrimaryBundles.ExpandedMeaning | src/research_kb/primary_bundles.py:28-41 | expansion keeps the entries, appends only active children with new distinct identities, and leaves no active identity out |
| PrimaryBundles.ExpansionIsIdempotent | src/research_kb/primary_bundles.py:28-41 | expanding twice adds nothing |
| PrimaryBundleDiagnostics.BundleFaultsEmpty | src/research_kb/primary_bundles.py:44-98 | nothing is reported exactly when the bundle is one linked, numbered log of its paper with fresh identifiers |
| PrimaryBundleDiagnostics.PrimaryBundleDiagnostics | src/research_kb/primary_bundles.py:44-98 | the passes report exactly those faults |
| PrimaryBundleDiagnostics.ExpandActivePrimaryEntries | src/research_kb/primary_bundles.py:28-41 | computes the expansion |
| PrimaryBundleDiagnostics.MixedPrimaryAuthorityDiagnostics | src/research_kb/primary_bundles.py:101-123 | reports every standalone record of a bundled paper; silent exactly under single authority |
| CanonicalText.KeyOrderIsUnitOrder | tools/release_governance.py:147-148 | comparing UTF-16BE bytes is comparing UTF-16 code units, as section 3.2.3 of RFC 8785 requires |
| CanonicalText.UnitOrderIsNotCodePointOrder | tools/release_governance.py:147-148 | that order is not the order of code points |
| CanonicalText.SortKeyInjective | tools/release_governance.py:115-148 | the sort key identifies an encodable key |
| CanonicalText.EscapeJsonString | tools/release_governance.py:151-171 | writes the quoted, escaped string |
| CanonicalText.StringsUnescape | tools/release_governance.py:151-171 | a quoted string reads back as itself, whatever follows it (section 3.2.2.2 of RFC 8785) |
| CanonicalEscapes.EscapeIsShortest | tools/release_governance.py:151-171 | of all texts a decoder reads as one character without raw control characters, the written one is shortest, and below six characters it is the only one |
| CanonicalEscapes.EscapeAllIsShortest | tools/release_governance.py:151-171 | no text that reads back as a string is shorter than the written one |
| CanonicalJson.AcceptedExactly | tools/release_governance.py:123-144 | normalisation succeeds exactly on the restricted domain |
| CanonicalJson.RenderIsPrint | tools/release_governance.py:174-191 | sorting every object while writing is writing the fully sorted normal form |
| CanonicalJson.StrictJsonObject | tools/release_governance.py:224-230 | keeps the pairs of an object with distinct keys, and otherwise names the first repeated key |
| CanonicalDecoding.PrintedReads | tools/release_governance.py:174-191 | a written value reads back as itself and leaves what follows it |
| CanonicalDecoding.RenderedDecodes | tools/release_governance.py:194-197 | a decoder recovers the normal form from the canonical text |
| CanonicalGrammar.CanonicalKeeps | tools/release_governance.py:123-144 | the normal form of an accepted input keeps every value, item and member |
| CanonicalGrammar.CanonicalTextSays | tools/release_governance.py:174-197 | the canonical text is a sentence of the JSON grammar, without spaces, for the value it was made from, with members in key order throughout |
| CanonicalIdentity.CanonicalTextIsIdentity | tools/release_governance.py:174-197 | canonical texts are equal if and only if the values are the same up to the order of object keys |
| CanonicalIdentity.CanonicalInjective | tools/release_governance.py:123-144 | normalisation loses nothing |
| CanonicalIdentity.CanonicalJsonIsIdentity | tools/release_governance.py:194-217 | for accepted inputs an injective digest of the canonical text is an identity of the value |
| SkillTree.UnixLinesIdempotent | tools/sync_portable_skill.py:42-47 | line-ending normalisation leaves no carriage return and is idempotent |
| SkillLines.LinesAreKept | tools/sync_portable_skill.py:42-47 | normalising a text keeps every line and what follows the last one, and makes every ending, LF, CR or CRLF, an LF |
| SkillLines.EveryTextIsLines | tools/sync_portable_skill.py:42-47 | every sequence of bytes is made of such lines and endings |
| SkillTree.PosixInjective | tools/sync_portable_skill.py:19-27 | distinct valid paths are written differently |
| SkillSync.ChildMeansKept | tools/sync_portable_skill.py:58-66 | at its turn in the deepest-first loop a directory is non-empty exactly when a kept file lies below it |
| SkillSync.PruningLeavesKept | tools/sync_portable_skill.py:58-66 | deletion leaves exactly the files the source also has and exactly the directories above them, whatever clashed |
| SkillWrite.PutAllShape | tools/sync_portable_skill.py:68-75 | the writing pass fails exactly when some temporary is blocked by a directory, and makes exactly the directories it needs |
| SkillWrite.WrittenInPlace | tools/sync_portable_skill.py:68-75 | a written file is in place and normalised exactly unless a later temporary carried its name |
| SkillSyncResult.SyncExactly | tools/sync_portable_skill.py:50-80 | from any destination the run ends with the normalised source and no mismatch if and only if no name collides with a temporary |
| SkillSyncResult.WithoutTemporaryNames | tools/sync_portable_skill.py:73-73 | no source path named like a temporary means no collision |
| SkillSyncResult.SecondRunCanFail | tools/sync_portable_skill.py:68-75 | a concrete source whose first run succeeds and whose second run fails |
| SkillSyncRun.Directory.ReplaceFile | tools/sync_portable_skill.py:68-75 | makes the parents, writes the temporary and renames it, or fails at the step that cannot be done |
| SkillSyncRun.Snapshot | tools/sync_portable_skill.py:14-39 | the normalised files, unless a text file does not decode |
| SkillSyncRun.SyncTree | tools/sync_portable_skill.py:50-80 | an undecodable source changes nothing; otherwise success exactly without collisions, and then exactly the target tree |
| SkillSyncRun.SecondRunChangesNothing | tools/sync_portable_skill.py:50-80 | a second run changes nothing exactly when no temporary is an earlier file or a needed directory |
| ObsidianViews.IndexMeaning | src/research_kb/obsidian_views.py:257-317 | in a well-formed workspace the dependency index holds exactly the digests of the standalone records and active children |
| ObsidianWatermarks.RecordTransfers | src/research_kb/obsidian_views.py:162-176 | a record whose dependency two workspaces share is a record of both |
| ObsidianWatermarks.ContentTransfers | src/research_kb/obsidian_views.py:162-176 | cards and evidence transfer, in the legacy and in the bundle case |
| ObsidianWatermarks.LinkTransfers | src/research_kb/obsidian_views.py:384-413 | tag links and the names they give transfer |
| ObsidianWatermarks.SharedDependenciesShareFacts | src/research_kb/obsidian_views.py:416-481 | sharing the dependencies of a paper view means sharing everything its body is rendered from |
| ObsidianWatermarks.PaperKeysDemand | src/research_kb/obsidian_views.py:162-176 | the key list of a paper view asks for everything the view reads |
| ObsidianSoundness.PaperWatermarkIsSound | src/research_kb/obsidian_views.py:47-55 | two paper views with equal watermarks are equal |
| ObsidianSoundness.MergeKeepsMembers | src/research_kb/obsidian_views.py:838-844 | merging dependencies of one index loses none |
| ObsidianSoundness.PapersIndexWatermarkCoversViews | src/research_kb/obsidian_views.py:720-735 | equal Papers-index watermarks mean the same papers and the same facts behind every view |
| ObsidianSoundness.PapersIndexWatermarkIsSound | src/research_kb/obsidian_views.py:720-735 | two Papers indexes with equal watermarks are equal |
| ObsidianProjection.DependencyIndex | src/research_kb/obsidian_views.py:257-317 | the two loops build the index |
| ObsidianProjection.TagProjection | src/research_kb/obsidian_views.py:384-413 | the loops collect names and dependency keys of the tags on every target |
| ObsidianFacts.ShownTags | src/research_kb/obsidian_views.py:384-413 | a view shows a tag name if and only if it is the active name of a tag whose link to the target is active and assigned |
| ObsidianFacts.FactsAreRecords | src/research_kb/obsidian_views.py:416-481 | a paper view is missing exactly without a profile, paper or card, and otherwise rests on the first profile, the last paper and card of its id, the tags shown, and every piece of evidence of the paper in order of id |
| ObsidianProjection.BuildContext | src/research_kb/obsidian_views.py:123-155 | the context reflects the workspace; it fails exactly without a profile |
| ObsidianProjection.RenderPaperIsView | src/research_kb/obsidian_views.py:416-481 | a view rendered from the context is the view of the workspace |
| ObsidianProjection.ProjectPapers | src/research_kb/obsidian_views.py:720-735 | the Papers index over all paper views |
| BackupArchive.FilesDeterminePayload | src/research_kb/backup.py:727-743 | the archive's ordered entries determine the dictionary they came from |
| BackupPlan.SourcePayloadContents | src/research_kb/backup.py:545-608 | the source part holds exactly the archive paths of the listed assets, each with its recorded digest |
| BackupInspection.ClosureSound | src/research_kb/backup.py:620-674 | for a plan the control closure holds exactly when every source root is declared |
| BackupInspection.PlannedArchiveInspects | src/research_kb/backup.py:66-129 | within the reader's limits a plan's archive inspects to its own manifest if and only if its control records validate and its source roots are declared |
| BackupPlanning.CollectSources | src/research_kb/backup.py:545-608 | collects the bytes of every listed source, or the first refusal |
| BackupPlanning.PlanBackup | src/research_kb/backup.py:308-364 | the loops compute the plan or the refusal; BackupContents.PlanHolds and PlanSucceeds say what is in a plan and when there is one |
| BackupContents.PlanHolds | src/research_kb/backup.py:308-364 | a plan holds a file under a name if and only if the name and the bytes are those of a control record, of a knowledge file other than marker, lock and generated views, or with sources of a source of some paper; its inventory lists exactly those sources, in order |
| BackupContents.PlanSucceeds | src/research_kb/backup.py:308-608 | there is a plan if and only if the names are safe and stay apart when folded and, with sources, every source is current, available and unchanged and those that would take one name have the same bytes |
| BackupPlanning.WriteArchive | src/research_kb/backup.py:727-743 | writes the entries in name order, each with its content |
| BackupPlanning.InspectArchive | src/research_kb/backup.py:66-129 | the loops compute the inspection, with the running total and the size limits; BackupInspected.InspectedArchive says what an accepted archive holds and BackupInspection.PlannedArchiveInspects which planned ones are accepted |
| BackupInspected.InspectedArchive | src/research_kb/backup.py:66-129 | an archive whose inspection answers a manifest: safe ascending names within the limits, control records read from their own files, every other file listed once under the digest and size of its bytes and nothing else listed, every item under a declared root and with sources its bytes at its path under its recorded digest |
| BackupInspected.ManifestDeterminesPayload | src/research_kb/backup.py:66-129 | with an injective digest two archives that inspect to one manifest hold the same payload |
| BackupRuns.CreateSite.CreateLocked | src/research_kb/backup.py:219-291 | publishes archive and receipt, or raises at any step and leaves no stage, no receipt and no archive of its own |
| BackupRuns.RestoreSite.Restore | src/research_kb/backup.py:388-510 | succeeds if and only if stage and target are free, no step raises and the archive is restorable; the target is then exactly the restored tree, every kept payload file byte for byte; any failure leaves neither stage nor target |
| BackupRestored.RestorableExactly | src/research_kb/backup.py:388-510 | an archive that inspects can be restored if and only if it has the expected digest, the mappings are empty with sources and one for each root without, there are sources when they are included, and the workspace with its marker passes its checks |
| BackupRestored.RestoredExactly | src/research_kb/backup.py:388-510 | the workspace a restore leaves, file by file: knowledge, with sources the sources, the configuration written for the request, the profile as it was, a fresh marker and the receipt, and nothing else |
| BackupRoundTrip.ArchiveHasSources | src/research_kb/backup.py:545-608 | a planned archive holds source bytes if and only if sources are included and some paper is registered |
| BackupRoundTrip.RestoreUndoesBackup | src/research_kb/backup.py:66-510 | within the reader's limits a planned archive is restorable if and only if its control records validate, its source roots are declared, the mappings fit the mode, a source-inclusive backup has a paper and the workspace passes its own checks; the restored tree is then exactly the carried files, the control files, a fresh marker and the receipt |
| BackupRoundTrip.EveryByteComesBack | src/research_kb/backup.py:388-510 | plan, inspect and restore under a fresh id: under that condition the restore succeeds with every carried knowledge file byte for byte and every listed source at its recorded digest |
| BackupRoundTrip.EmptyBackupIsRefused | src/research_kb/backup.py:433-437 | the workspace without papers, backed up with sources: the archive inspects with all roots declared, and no restore accepts it |
| ExchangeExport.SelectedAreEntries | src/research_kb/exchange.py:459-545 | every scope selects only exportable workspace records, each key once; SelectionIsScope says which |
| ExchangeExport.SelectionCoversScope | src/research_kb/exchange.py:459-545 | for each kind and id a selection has a record if and only if some exportable record of that kind and id is in scope: of the paper, question or direction, sharing a paper with such a record, or tagging the target |
| ExchangeExport.SelectionIsScope | src/research_kb/exchange.py:459-545 | with distinct keys a selection is exactly the exportable records in scope |
| ExchangeContents.SelectionByKind | src/research_kb/exchange.py:459-545 | kind by kind, spelled out: with distinct keys a selection is exactly the records its scope means, and it is refused if and only if there are none or one has no id |
| ExchangeAgreement.GroupsPermute | src/research_kb/exchange.py:285-297 | the records files together hold exactly the envelopes |
| ExchangeAgreement.LocalHolds | src/research_kb/exchange_import.py:559-572 | with distinct ids the local dictionary holds every record's own envelope |
| ExchangeAgreement.ReimportIsExact | src/research_kb/exchange_import.py:573-580 | an exported record is classified as an exact local duplicate in its own workspace |
| ExchangeAcceptance.PlannedArchiveValidates | src/research_kb/exchange_import.py:465-556 | every archive assembled from an export plan passes validation and yields exactly the plan's records, sources and manifest |
| ExchangeAcceptance.ExportReimports | src/research_kb/exchange_import.py:559-614 | export then import into the unchanged workspace: every record arrives, as an exact duplicate |
| ExchangeBuild.CollectSources | src/research_kb/exchange.py:361-456 | archives every usable source under its digest and reports the others missing; ExchangeContents.SourcesStand says which and how |
| ExchangeContents.SourcesStand | src/research_kb/exchange.py:361-456 | with an injective digest there is a descriptor for each current PDF with its recorded fingerprint, in order, its bytes under that fingerprint, and no other file |
| ExchangeBuild.BuildEnvelopes | src/research_kb/exchange.py:548-572 | wraps every selected record, or the first refusal; ExchangeAgreement.GroupsPermute and ReimportIsExact carry what the envelopes hold |
| ExchangeContents.EnvelopesWrap | src/research_kb/exchange.py:548-572 | the selected records are wrapped one by one, a paper as its identity, with origin, id, kind and the digest of what leaves; there is a refusal if and only if some record may not leave |
| ExchangeBuild.ProjectConflicts | src/research_kb/exchange_import.py:559-614 | classifies every imported record against the local records, each answer under its own condition on them as ExchangeConflicts.ConflictsByRecords states it |
| ExchangeBuild.ValidateSupportedBundle | src/research_kb/exchange_import.py:465-556 | the loops compute the validation; ExchangeValidated.ValidatedBundle says what an accepted archive holds and ExchangeAcceptance.PlannedArchiveValidates that exported ones are accepted |
| ExchangeValidated.ValidatedBundle | src/research_kb/exchange_import.py:465-556 | an archive that validates: the receipt carries digest, id, scope and basis of the manifest; the data files are exactly the declared paths, each once with the digest and size of its bytes; every envelope is read from the records file of its kind and has the digest of its record; every source names an archived PDF with its fingerprint and size; kinds and counts are those declared |
| ExchangeValidated.ManifestDeterminesData | src/research_kb/exchange_import.py:465-556 | with an injective digest two archives that validate with one manifest file hold the same data files |
| ExchangeConflicts.ConflictsByRecords | src/research_kb/exchange_import.py:559-614 | an imported record is an exact duplicate, a semantic conflict, an identity match, a new identity or a new revision exactly under its own condition on the local records: the last one of its kind and id, the digests, and the first local paper with its source or DOI |
| ExchangeBuild.BuildSite.BuildLocked | src/research_kb/exchange.py:156-252 | publishes archive and receipt, or raises at any step and restores the receipt there was and an absent target |
| OperationalProfiles.TimestampsRoundTrip | benchmarks/p11_operational_density/generator.py:504-508 | a written timestamp reads back as its ordinal exactly while the ordinal is below 31 days |
| OperationalProfiles.PaddedInjective | benchmarks/p11_operational_density/generator.py:285-285 | zero-padded numbers stay apart |
| OperationalGenerator.GeneratedChainSound | benchmarks/p11_operational_density/generator.py:259-356 | every generated task whose last timestamp is inside January is a sound chain |
| OperationalGenerator.InJanuaryMeans | benchmarks/p11_operational_density/generator.py:259-356 | the bound on a profile holds if and only if the last timestamp of every one of its tasks is inside January |
| OperationalGenerator.IndependentChainsAccepted | src/research_kb/agent_tasks.py:217-354 | sound chains of different tasks without lineage make an accepted log |
| OperationalGenerator.GeneratedLogAccepted | benchmarks/p11_operational_density/generator.py:259-356 | the chain validator accepts every generated log whose timestamps stay inside January |
| OperationalEvents.EventCountIsExact | benchmarks/p11_operational_density/profiles.py:21-38 | the number of events is the requested one if and only if the profile's bound holds |
| OperationalEvents.EventDiagnostics | src/research_kb/guardian.py:642-671 | silent exactly when every success event names a state and every state is named exactly once |
| OperationalEvents.GeneratedWorkspaceIsSound | benchmarks/p11_operational_density/generator.py:149-203 | for every valid profile inside January: the exact event count, accepted task states, each named by exactly one success event |
| OperationalEvents.EmitEvents | benchmarks/p11_operational_density/generator.py:149-203 | the emitting loops produce exactly those events |
| DiffStream.ParseDiffStream | tools/ci_risk_classifier.py:187-239 | the loop parses and sorts the stream; ParseUndoesWriting and ParsedAreValid carry what it reads |
| DiffStream.ParseUndoesWriting | tools/ci_risk_classifier.py:187-239 | parsing a written change list returns it sorted: every token is consumed and no change is lost |
| DiffStream.ParsedAreValid | tools/ci_risk_classifier.py:205-227 | whatever is read names valid paths on the sides its kind has |
| DiffStream.StreamOrderIrrelevant | tools/ci_risk_classifier.py:238-238 | the same changes written in any order parse to the same list |
| RiskClassifier.ReasonsAreUnions | tools/ci_risk_classifier.py:242-250 | each reason holds the union of everything contributed under its code |
| RiskClassifier.SelectedIsCollapseOfReasons | tools/ci_risk_classifier.py:342-404 | the levels selected are those the reasons mention |
| RiskClassifier.OrderIrrelevant | tools/ci_risk_classifier.py:342-404 | only which changes there are decides the selected levels |
| RiskClassifier.ReasonsOrderIrrelevant | tools/ci_risk_classifier.py:242-250 | the reported reasons, with their paths and levels, do not depend on the order of the changes or on repetitions |
| RiskClassifier.Monotone | tools/ci_risk_classifier.py:264-272 | adding changes never weakens the selection |
| RiskClassifier.RenameNotWeaker | tools/ci_risk_classifier.py:345-379 | a rename or copy selects at least what deleting and adding would |
| RiskClassifier.SafeRenamesExactly | tools/ci_risk_classifier.py:364-379 | a rename stays below L3 exactly when both sides are documentation or both are ordinary code |
| RiskClassifier.RiskWins | tools/ci_risk_classifier.py:129-141 | only documentation selects L0, and no documentation or ordinary pattern takes anything from the levels of the risk classes that match a path |
| RiskClassifier.MissingEventFailsClosed | tools/ci_risk_classifier.py:275-297 | a missing event selects the strongest levels |
| RiskClassifier.Classify | tools/ci_risk_classifier.py:342-404 | the loops compute the reasons, and select the collapse of all levels those reasons mention; SelectedIsCollapseOfReasons, ReasonsAreUnions and ReasonsOrderIrrelevant carry what they mean |
| RiskSelection.SelectedByPatterns | tools/ci_risk_classifier.py:342-404 | the levels, read off the patterns, the renames, the event and the branch: when L4, when L3, when L2 and when L0 |
| RiskSelection.UnlistedPathSelectsL3 | tools/ci_risk_classifier.py:342-404 | one path that no pattern matches selects L3, whatever else changed |
| RiskSelection.MainSelectsL3 | tools/ci_risk_classifier.py:275-297 | a push to main, or a pull request into it, selects L3, and L4 besides exactly when some matching class asks for it |
| RiskReasons.ReasonsByPatterns | tools/ci_risk_classifier.py:342-404 | every reported code, path and level is accounted for by a matching class, documentation, ordinary code, an unlisted path, a rename, an empty change list or the event, and everything so accounted for is reported |

## Left out

- Command lines, printing and exit codes: plumbing over the services modelled here.
- ZIP and tar byte formats, compression ratios, permissions, links, reserved names and Unicode
  normalisation: an archive is a map, or a sorted sequence, of names and contents.
- JSON Schema validation, workspace validation and layout: predicates passed as parameters.
- The temporary files inside atomic writes: a write is one step, so a leftover temporary of a crashed
  atomic write is not modelled.
- Pipeline jobs, review bundles, organization bundles, the catalog and the transaction manager: their
  records appear only as uninterpreted kinds.
- Review, direction, question, synthesis and home views and the optional tables: only paper views and
  the Papers index are modelled, and a body is a function of the records it reads.
- Glob matching, redaction and the case folding of text: uninterpreted functions.
- The rules file of the risk classifier and the list of affected tests: rules arrive loaded and validated.
- Directories created empty by a restore: a restored tree is its files.
- Exchange preflight compatibility levels, and how the safe reader walks a ZIP file: its budget is a
  predicate on the entries (`WithinBudget`).
- Case-insensitive file systems: an extraction tells paths apart exactly.
- Timestamps outside January 2026: the parser of the model reads that month only, which is all the
  generator writes while its ordinals stay in range.
- How an export lists the source assets of its papers: the list is an input of `CollectSources`; the same
  rule is modelled for backups.
- Claimed review status and admissibility of an exported record: parts of the record.
- Identifier derivation by hashing: identifier families are injective functions.
- Benchmark measurements, resource tables and shard receipts: observations without an invariant.
- ObsidianSoundness.PaperWatermarkIsSound: assumes distinct record ids, single authority over every
  bundled paper and active children of the bundle's own paper, as workspace validation enforces.
- GuardianImports.ImportDiagnostics: does not model journal files that do not read or validate, nor
  other entries of the journal directory, which the checks report and recovery refuses or skips.
- SkillSyncRun.SyncTree: source and destination are two separate trees; a destination inside the source,
  or the reverse, where pruning could delete files still to be read, is not modelled.
- SkillSyncRun.Snapshot: does not model links, and takes decodability of a text as a predicate that
  line-ending changes keep.
- BackupRuns.CreateSite.CreateLocked: an asynchronous interruption between a write and the flag that
  records it is not modelled.
- ExchangeBuild.BuildSite.BuildLocked: an asynchronous interruption between a write and the flag that
  records it is not modelled.
