# SmarTune state kernels: a verified model

SmarTune watches a machine, limits applications that press on it, and records what it did.
Its plumbing is I/O; behind the plumbing stand small state machines that everything else
leans on. This project models those machines in Dafny, with the branches, edge cases and
constants of the Python code, and proves what they keep over every run.

Where the code works in place the model does too: a class with the source's fields and one
method per operation, each proved against a specification function. The lemmas are about
those functions: invariants over unbounded runs, exact characterisations, round trips and
conservation laws. `dafny verify dfyconfig.toml` checks everything.

| Part | Files |
|---|---|
| Comment-preserving YAML editing | `Text`, `YamlFlow`, `YamlPlain`, `YamlSection`, `SectionReadBack`, `SectionEdits`, `SectionRemoval`, `ConfigFile`, `ConfigLocality`, `EmptySection`, `SetAsked`, `ListEditor`, `ScalarEdit`, `ScalarReadBack` |
| Event ledger, control lifecycles, retention | `ControlLedger`, `LedgerRetention`, `LedgerReads`, `LifecycleMeaning`, `EventLedger` |
| Alerts | `AlertStore`, `AlertRuns`, `AlertEscalation`, `AlertHistory`, `AlertQuery`, `AlertExpiry`, `AlertTable` |
| Pressure pipeline | `RealMath`, `Levels`, `PressureLevel`, `DiskPressure`, `NetPressure`, `WindowHistory`, `NetworkGauge`, `Episodes`, `PeakLatch`, `SectionStamp` |
| Leases, limits, inventories, counters | `QuietMode`, `LoginLimiter`, `ConfigRevision`, `RevisionChain`, `PmtCounters`, `PmtSampler`, `PmtRuns`, `PmtTraffic`, `IoStat` |

## What the proofs found

Each of these is a lemma with the inputs that show it, next to the exact condition under
which the code does what it promises.

- A whitespace-only line below a one-field list item is taken for a sub-key and sets the
  column of every sub-key appended later; the file then no longer reads
  (`ConfigFile.WideBlankLineMisleads`).
- Removal compares the text of an item in the file but `str()` of the value in memory. The
  two differ exactly on booleans, nulls and strings that hold a backslash or a double quote
  or begin or end with an apostrophe (`SectionRemoval.CrudeAgreesExactly`). Sync survives a
  removal exactly when the scan matches no item or both judge every item alike
  (`ConfigFile.RemoveSync`); a trailing apostrophe takes two items from a file and one from
  memory (`ConfigFile.ApostropheDivides`).
- Removing the last item of a block leaves a bare header, which is null in the file and the
  empty list in memory; no other fitting call does (`EmptySection.StepLeavesNullExactly`).
- A value set by path is written unquoted. It reads back exactly when it is a boolean, an
  integer, or a text that reads as itself without quotes (`ScalarReadBack.ReadsBackExactly`).
  The validated callers send no other texts, but `set_limit_policy` (config/config.py:665-669)
  takes any mode name: `a #b` reads as `a`, and `x: y` leaves a line that does not read
  (`ScalarReadBack.UncheckedTextIsLost`). Writing a text with a `#` again makes the comment
  grow, and no other text (`ScalarEdit.IdempotentExactly`).
- A limit that FAILED without ever being APPLIED cancels, in the count retention uses,
  another limit that is still in force, in either order of the two events
  (`ControlLedger.FailedAttemptHidesLiveLimit`).
- A lifecycle that is unresolved by count stays so when it is closed by hand: retention keeps
  it whole, whatever follows, until one of its own events closes it
  (`LedgerReads.ClosedByHandIsKeptForever`).
- Fires are lost exactly when an occurrence closes under a start stamp that is archived
  already (`AlertRuns.LossIsCollision`).
- The mark and the baseline of an escalation outlive their occurrence: an open alert is
  marked without a cause of its own exactly when a rule was applied before its occurrence
  and none in it (`AlertEscalation.MarkOutlivesOccurrence`), which the shipped restart policy
  reaches (`AlertEscalation.MarkIsReached`). The severity is not affected: in every run of
  the program it differs from the policy's exactly when a rule of another level was applied
  in this very occurrence, unless that level is the lower one and the row was marked before
  (`AlertEscalation.EscalationInTheProgram`).
- An inventory revision follows the one stored before it exactly when no revision but the
  last is older than one stored earlier (`RevisionChain.ChainIsLinearExactly`). A check whose
  clock is behind the revision in force, and no other, makes the next one record the same
  change again (`RevisionChain.ChangeRepeatsExactly`, `RevisionChain.ClockSetBackRepeatsAChange`).
- The quiet-mode watchdog looks and releases in two locked steps. Its release ends an active
  hold exactly when a hold entered in between is in place, leased without a gap and with its
  gate up (`QuietMode.WatchdogEndsANewHoldExactly`); every entry in between is such a hold
  while its lease runs (`QuietMode.WatchdogMayEndANewHold`).
- The network gauge and the interface cards disagree when the high band starts above the cap
  on unexhausted receive scores (`NetworkGauge.GaugeAgreesExactlyBelowTheCap`).
- The guard against wrong counter layouts disables none of the shipped platforms, since the
  unverified ones lack the counters it compares: over any run they are disabled exactly by a
  region that is too short (`PmtTraffic.GuardNeverDisablesShipped`).

## Model

| member | source | states |
|---|---|---|
| YamlFlow.EscapeIsPerCharacter | config/config.py:306-325 | the two replacements in a row escape every character exactly once |
| YamlFlow.QuotedReadsBack | config/config.py:306-325 | a reader of double-quoted scalars gives the string back exactly when all its characters may stand in one |
| YamlFlow.IntReadsBack | config/config.py:306-325 | a printed integer resolves to itself, negative ones too |
| YamlFlow.ValueReadsBack | config/config.py:306-325 | in any context, a printed value of any nesting reads back as itself if and only if it is clean |
| YamlFlow.ItemsReadBack | config/config.py:306-325 | the same for the items of a flow list |
| YamlFlow.EntriesReadBack | config/config.py:306-325 | the same for the entries of a flow mapping |
| YamlFlow.PrintedReadsBackExactlyWhenClean | config/config.py:306-325 | reading undoes printing for every clean value and fails for every other |
| YamlFlow.PrintingIsInjective | config/config.py:306-325 | different values print differently |
| YamlFlow.PrintedIsOneLine | config/config.py:306-325 | a printed value never breaks its line |
| SectionReadBack.ItemReadsBack | config/config.py:378-394 | a rendered item reads back if and only if it has no sub-keys or they stand two columns right of the dash |
| SectionReadBack.ItemsReadBackInOrder | config/config.py:378-394 | rendered items read back in order, under the same exact condition |
| SectionReadBack.DetectedColumn | config/config.py:356-376 | on a block that reads, the editor finds the column the reader uses |
| SectionEdits.CutAt | config/config.py:328-353 | header and block end cut the file so that joining the parts gives it back |
| SectionEdits.BlockEndsExactly | config/config.py:340-353 | a block ends at the first line that says something in column 0, or with the file |
| SectionEdits.JoinedIsFound | config/config.py:328-353 | the editor finds a section again wherever a file is put together around it |
| SectionEdits.DetectedDashIsIndented | config/config.py:356-376 | no dash is ever detected in column 0 |
| SectionEdits.AppendIsLocal | config/config.py:396-443 | appending changes the block and no line before or after it |
| SectionEdits.AppendedBehindLastLine | config/config.py:396-443 | the new item stands behind the last line of the block that is not blank, and the blank lines stay behind it |
| SectionEdits.AppendedBodyReads | config/config.py:396-443 | the block then reads as the list with the entry at its end, exactly when the columns agree |
| SectionEdits.SetIsLocal | config/config.py:445-504 | setting changes header and block only and keeps the header's comment |
| SectionEdits.HeaderKeepsComment | config/config.py:445-504 | the new header carries exactly the comment of the old one |
| ConfigFile.AddedBehindBlankLine | config/config.py:445-504 | an added section stands behind a blank line, and only one is put in |
| SectionEdits.SetBodyReads | config/config.py:445-504 | a rewritten block reads as the new list, exactly when the columns agree |
| SectionEdits.NewHeaderReads | config/config.py:445-504 | the new header is found again, inline `[]` exactly for the empty list |
| SectionRemoval.CrudeAgreesExactly | config/config.py:506-585 | the text scan and str() agree on a scalar if and only if it is an integer, or a text without backslash, double quote, or apostrophe at an end |
| SectionRemoval.JudgedAlike | config/config.py:506-585 | on such values file and memory judge an item alike |
| SectionRemoval.KeptReads | config/config.py:506-585 | the lines left read as the items the scan lets stay, and as many went as the count says |
| SectionRemoval.RemovedBodyReads | config/config.py:506-585 | the same for a whole block, which stays in the printer's form |
| SectionRemoval.KeptAlike | config/config.py:506-585 | file and memory keep the same items when the values scan true |
| ConfigFile.AppendSync | config/config.py:396-443 | after an append the file reads as the list in memory if and only if the call fits: block header, agreeing columns |
| ConfigFile.SetSync | config/config.py:445-504 | the same for set, which also rewrites an inline header |
| SetAsked.EqualExactly | config/config.py:445-504 | the comparison of two values is equality of what they stand for: a boolean its number, a dict its map |
| SetAsked.NothingToDoExactly | config/config.py:445-504 | nothing is done if and only if memory holds the list that was asked for, and an empty one stands in the file as `[]` |
| SetAsked.SetHoldsWhatWasAsked | config/config.py:445-504 | after any set memory holds the list asked for, item by item the same keys and values, and after a fitting one the block reads as it too |
| SetAsked.MeaningIsExact | config/config.py:445-504 | nulls, texts and integers other than 0 and 1 are held exactly |
| ConfigFile.KeptByItem | config/config.py:506-585 | file and memory keep the same list if and only if they judge every item alike |
| ConfigFile.RemoveSync | config/config.py:506-585 | after a removal file and memory agree if and only if the scan matches no item or both judge every item alike |
| ConfigFile.StepSync | config/config.py:396-585 | every fitting call keeps the edited section in sync |
| ConfigFile.OthersSync | config/config.py:396-585 | any call, even one that breaks its own section's sync, leaves every other section exactly as much in sync as it was |
| ConfigFile.OtherSectionsKeepTheirView | config/config.py:328-353 | rewriting one block leaves what every other section holds |
| ConfigFile.EditIsLocal | config/config.py:396-585 | a call rewrites its own header and block and no other line, whatever the block holds |
| ConfigFile.RunStaysInSync | config/config.py:396-585 | over any run of fitting edits every section of the file reads as its list in memory |
| EmptySection.NullExactly | config/config.py:445-585 | a section in sync is null in the file if and only if its list is empty and its header bare |
| EmptySection.StepLeavesNullExactly | config/config.py:445-585 | a call leaves its section null if and only if it is a removal from a block that leaves memory without an item |
| ConfigLocality.StepLeavesTheRest | config/config.py:396-585 | a call leaves the lines outside the blocks of any set of sections with its own among them; only an added section may put a blank line at their end |
| ConfigLocality.RunLeavesTheRest | config/config.py:396-585 | over any run of edits to any sections of any file every line outside their blocks stays, in order |
| ConfigLocality.SectionsStay | config/config.py:396-585 | no call takes a section out of the file |
| ConfigFile.StepTerminated | config/config.py:396-585 | every line written ends in its only newline, so the file splits into the same lines |
| ConfigFile.WideBlankLineMisleads | config/config.py:356-376 | a whitespace-only line of another width sets the sub-key column and the next entry does not read |
| ConfigFile.ApostropheDivides | config/config.py:506-585 | a file of two items in sync and a call that takes both from it but one from memory |
| ListEditor.Config.FindTopLevelKey | config/config.py:328-337 | returns the header's index, -1 when there is none |
| ListEditor.Config.FindBlockEnd | config/config.py:340-353 | returns the end of the block |
| ListEditor.Config.DetectListItemIndent | config/config.py:356-376 | returns the columns of dash and sub-keys |
| ListEditor.Config.RenderListItem | config/config.py:378-394 | builds the lines of one item |
| ListEditor.Config.AppendToListSection | config/config.py:396-443 | carries out the specified append on file and memory |
| ListEditor.Config.SetListSection | config/config.py:445-504 | carries out the specified set; memory then holds what was asked for, and false means that it did before and nothing changed |
| ListEditor.Config.ScanItem | config/config.py:506-585 | scans an item's text into fields |
| ListEditor.Config.ItemRanges | config/config.py:506-585 | finds the line ranges of the items |
| ListEditor.Config.DeleteRanges | config/config.py:506-585 | deletes the ranges from the bottom up |
| ListEditor.Config.RemoveFromListSection | config/config.py:506-585 | carries out the specified removal and returns the items memory lost |
| ListEditor.DeletedIsKept | config/config.py:506-585 | deleting the matching ranges leaves exactly the lines of the items that stay |
| ScalarEdit.KeyLeavesACharacter | config/config.py:121-146 | the indent of a key never takes all of the text in front of the colon |
| ScalarEdit.RewritingKeepsTheKey | config/config.py:121-164 | a rewritten line keeps key and indent |
| ScalarEdit.CommentAfter | config/config.py:121-164 | the comment after a rewrite, for every value |
| ScalarEdit.IdempotentExactly | config/config.py:121-164 | writing twice is writing once if and only if the value has no `#` |
| ScalarEdit.PathsAreInjective | config/config.py:121-164 | distinct paths lead to distinct lines |
| ScalarEdit.PathsSurviveEdits | config/config.py:121-164 | an edit never changes where any path leads |
| ScalarEdit.PatchIsPointwise | config/config.py:166-200 | a batch changes exactly the lines its paths lead to, each from its old text |
| ScalarEdit.BatchOrderIsImmaterial | config/config.py:166-200 | the order of a batch does not matter |
| YamlPlain.PlainReads | config/config.py:111-164 | a plain text reads as what it resolves to, whatever comment follows it |
| YamlPlain.OnlyPlainReads | config/config.py:111-164 | of all texts written behind a colon only plain ones that resolve to text read as themselves |
| ScalarReadBack.KeysAgree | config/config.py:111-164 | editor and reader find the same key and indent on a line |
| ScalarReadBack.ReadsBackExactly | config/config.py:111-164 | whatever the line and its comment, the written value reads back if and only if it is a boolean, an integer, or a text that reads as itself unquoted |
| ScalarReadBack.HashCutsOff | config/config.py:111-164 | a text with ` #` in it reads as the part in front |
| ScalarReadBack.UncheckedTextIsLost | config/config.py:665-669 | two mode names that the setter takes and the file loses |
| ScalarReadBack.PatchReadsBackExactly | config/config.py:166-200 | after a batch each path leads where it led and its line reads as its value, under the same exact condition |
| ScalarEdit.ReplaceYamlScalarLine | config/config.py:121-164 | finds the line key by key and rewrites it in place, or reports failure |
| ScalarEdit.PatchLines | config/config.py:166-200 | applies a batch in place |
| ControlLedger.CountsAgainstActive | db/DatabaseModel.py:426-456 | for every history, applied minus closed is the number of active resources, plus repeated and minus stray events |
| ControlLedger.AlternatingHasNoSurplus | db/DatabaseModel.py:426-456 | a history that alternates per resource has neither |
| ControlLedger.UnresolvedAgainstLifecycle | db/DatabaseModel.py:451-456 | without a reboot marker, unresolved by count if and only if active resources and repeats outnumber strays; on alternating ledgers, if and only if the lifecycle shows one |
| ControlLedger.SummaryIgnoresOrder | diagnostics/control_lifecycle.py:33-95 | a lifecycle depends on the set of events only |
| LifecycleMeaning.ResourcesByNewestAction | diagnostics/control_lifecycle.py:33-95 | a resource is active, recovered or failed by its newest action, and applied if it ever was |
| LifecycleMeaning.EndsOfLifecycle | diagnostics/control_lifecycle.py:33-95 | start, app, boot id and cgroups are those of the first event by stamp and id, the update that of the last |
| LifecycleMeaning.StatusExactly | diagnostics/control_lifecycle.py:33-95 | without markers failed if and only if some resource's newest action is FAILED, else active if and only if one is applied |
| LifecycleMeaning.MarkersDecide | diagnostics/control_lifecycle.py:33-95 | which marker decides the status, and when |
| LifecycleMeaning.UnfinishedExactly | diagnostics/control_lifecycle.py:121-160 | which protections a restart marks, in terms of their events |
| ControlLedger.FailedAttemptHidesLiveLimit | db/DatabaseModel.py:451-456 | a FAILED without APPLIED makes the count miss a live limit, in either order |
| LedgerRetention.PruningIsAllOrNothing | db/DatabaseModel.py:399-468 | a pass keeps a protection's history and lifecycle whole or drops a resolved one whose events are all older than the cutoff |
| LedgerRetention.SurvivesExactly | db/DatabaseModel.py:399-424 | an event survives a pass if and only if it is no older than the cutoff, or its protection is unresolved or has such an event |
| LedgerRetention.LiveIsActive | db/DatabaseModel.py:451-456 | on alternating histories, live by count is live by lifecycle |
| LedgerRetention.RetentionIsInvisible | db/DatabaseModel.py:399-468 | over any run of events and passes with any cutoffs, what is left is a settled-prefix cut of the full history with the same active resources and the same verdict |
| LedgerRetention.PruningNeverHidesALiveLimit | db/DatabaseModel.py:399-468 | the same seen through summarize: a live protection keeps its active resources |
| LedgerReads.FoldInFacts | diagnostics/control_lifecycle.py:98-118 | folding in adds exactly the missing events, each once |
| LedgerReads.LiveProtectionsAreWhole | diagnostics/control_lifecycle.py:98-118 | however small the window, an unresolved protection shows the lifecycle of the whole ledger |
| LedgerReads.ReconcilingSettles | diagnostics/control_lifecycle.py:121-160 | after one reconciliation none is left to do, and a mark changes no active resource |
| LedgerReads.MarkedStaysLiveExactly | diagnostics/control_lifecycle.py:121-160 | a marked protection stays unresolved by count if and only if its first event's boot id or the current one is unknown, or they are equal |
| LedgerReads.SameBootIsKept | diagnostics/control_lifecycle.py:121-160 | a protection of the running boot keeps its whole history over any later run that does not close it |
| LedgerReads.ClosedByHandIsKeptForever | diagnostics/control_lifecycle.py:163-186 | a lifecycle that is unfinished by count and closed by hand keeps its whole history over any run of events and passes that holds no closing event of its own |
| LedgerReads.UnresolvedStays | db/DatabaseModel.py:399-468 | the same for every protection that is unresolved by count |
| EventLedger.Digest | diagnostics/control_lifecycle.py:33-95 | one pass over sorted events gives the lifecycle |
| EventLedger.Summarize | diagnostics/control_lifecycle.py:33-95 | groups, sorts and digests: exactly the protections with events, each with its lifecycle |
| EventLedger.MarksFor | diagnostics/control_lifecycle.py:121-160 | one well-formed mark per unfinished protection |
| EventLedger.Ledger.InsertEvent | db/DatabaseModel.py:321-354 | one row per id and per deduplication key; the status says which rule refused |
| EventLedger.Ledger.ScanControlLifecycles | db/DatabaseModel.py:426-448 | the tallies of exactly the protections in the ledger |
| EventLedger.Ledger.DeleteOlderThan | db/DatabaseModel.py:399-424 | prunes as specified and counts the rows removed |
| EventLedger.Ledger.UnresolvedProtectionIds | db/DatabaseModel.py:471-482 | exactly the unresolved protections |
| EventLedger.Ledger.Query | diagnostics/control_lifecycle.py:98-118 | lifecycles of window and fold-in; unresolved ones as in the whole ledger |
| EventLedger.Ledger.ReconcileInterrupted | diagnostics/control_lifecycle.py:121-160 | marks exactly the unfinished protections, once each, leaves none, and gives up by count exactly those of another known boot |
| EventLedger.Ledger.ClearWithoutRuntimeState | diagnostics/control_lifecycle.py:163-186 | emits its event exactly for an active lifecycle without cgroups |
| AlertStore.StepCounts | db/DatabaseModel.py:537-770 | one call moves archive plus open count by the fire it records, less a collision |
| AlertStore.FiresAreConserved | db/DatabaseModel.py:537-770 | over every interleaving on any keys, recorded fires are archived, open or lost to a collision |
| AlertStore.OpenRowsCount | db/DatabaseModel.py:537-590 | an open occurrence has at least one fire |
| AlertRuns.LossIsCollision | db/DatabaseModel.py:883-894 | a key loses fires if and only if an occurrence closes under an archived start stamp |
| AlertRuns.DistinctStampsLoseNothing | db/DatabaseModel.py:537-770 | with start stamps never reused, archive and open occurrence hold every fire |
| AlertRuns.NoticesKeepTheCooldown | db/DatabaseModel.py:537-590 | within one occurrence notifications are a cooldown apart, over any run |
| AlertRuns.EscalationNeverDrops | db/DatabaseModel.py:702-744 | while an occurrence is open its escalated severity never drops, whatever is called |
| AlertRuns.BaselineIsTheFirst | db/DatabaseModel.py:702-744 | the baseline is the severity before the first escalation and never changes |
| AlertEscalation.CallsAreEvaluation | diagnostics/alerts.py:102-156 | the calls of one evaluation, one after the other, do what evaluating the event does |
| AlertEscalation.ProgramIsPoliced | diagnostics/alerts.py:78-81 | in every run of the program all reports of one key carry its policy's severity and all escalations its rule's level |
| AlertEscalation.SeverityIsItsOwnExactly | db/DatabaseModel.py:537-744 | an open alert has the severity its own occurrence calls for if and only if no rule of a lower level than the policy met a mark from before |
| AlertEscalation.SeverityDiffersExactly | db/DatabaseModel.py:537-744 | an open alert's severity differs from its latest report's if and only if a rule of another level was applied in this occurrence, and not in vain |
| AlertEscalation.MarkOutlivesOccurrence | db/DatabaseModel.py:702-744 | mark and baseline stand if and only if a rule was ever applied; on an open alert, before its occurrence or in it |
| AlertEscalation.EscalationInTheProgram | diagnostics/alerts.py:213-251 | these three over every run of events, resolutions and operator calls, under any policies and rules |
| AlertEscalation.MarkIsReached | diagnostics/alerts.py:33-59 | the shipped restart policy reaches a marked alert that no rule was applied to |
| AlertHistory.OpenAlertTellsItsOccurrence | db/DatabaseModel.py:537-744 | over any run an open alert shows the stamp its occurrence began with, its fires, its newest fire, its acknowledgement and its silence |
| AlertHistory.ClosingArchivesTheOccurrence | db/DatabaseModel.py:883-894 | what a closing archives is the occurrence as the calls made it |
| AlertHistory.NotifiesExactly | db/DatabaseModel.py:537-590 | a fire notifies if and only if the alert is not open, or was last notified, handled or raised a cooldown ago |
| AlertHistory.FiresExactlyWhenDue | diagnostics/alerts.py:102-156 | a report fires if and only if its alert is open or it comes the policy's time after the first report that waited |
| AlertHistory.MetExactly | diagnostics/alerts.py:213-251 | a rule applies if and only if the occurrence fired often enough within its window |
| AlertHistory.RecoveryCloses | diagnostics/alerts.py:102-156 | a recovery closes every open alert of its target in its scope and touches no other row |
| AlertHistory.SweepClosesExactly | diagnostics/alerts.py:176-191 | after any run a sweep closes an open alert if and only if some open alert of its type and scope last fired more than the lease ago |
| AlertQuery.PushdownIsExact | db/DatabaseModel.py:789-812 | two pages sorted together and cut are a top-k of both tables, up to ties |
| AlertQuery.QueryIsTopOfEverything | db/DatabaseModel.py:773-815 | so the query answers with the newest of everything, for any limit |
| AlertExpiry.SweepIsExact | diagnostics/alerts.py:176-191 | a sweep closes exactly the active rows of the kind and scope of an expired one and leaves no expired row |
| AlertExpiry.ResolvingCloses | db/DatabaseModel.py:747-770 | a resolution lessens the active rows by those of the kind and scope |
| AlertTable.Alerts.RecordFire | db/DatabaseModel.py:537-590 | updates the one row; notifies exactly when new, reopened or past the cooldown |
| AlertTable.Alerts.RecordPending | db/DatabaseModel.py:593-628 | updates the one row and returns since when it waits |
| AlertTable.Alerts.Acknowledge | diagnostics/alerts.py:164-173 | acknowledges, or closes and archives a one-off fault |
| AlertTable.Alerts.Escalate | db/DatabaseModel.py:702-744 | raises the severity once per level |
| AlertTable.Alerts.Resolve | db/DatabaseModel.py:747-770 | archives and closes every active row of the kind and scope and counts them |
| AlertTable.Alerts.ResolveExpired | diagnostics/alerts.py:176-191 | carries out the sweep over the rows it saw and counts the active rows it closed |
| AlertTable.Alerts.Evaluate | diagnostics/alerts.py:102-156 | recovery, waiting, firing and escalation in the policy's order |
| AlertTable.ImmediatePolicyAlwaysFires | diagnostics/alerts.py:102-156 | without a waiting time every event counts exactly one fire and leaves the alert active |
| PressureLevel.LevelIsSandwiched | monitor/pressure.py:231-249 | the emitted level lies between that of the smoothed score and that of the score plus the margin; critical exactly at the critical entry |
| PressureLevel.FallsAreBoundedByVariation | monitor/pressure.py:135-154 | margin times the falls from non-critical levels is at most the total movement of the smoothed score |
| PressureLevel.SampleSmooths | monitor/pressure.py:135-154 | a first score counts as it is, later ones leave 0.7 of the distance, a critical one is taken as it is |
| PressureLevel.SteadyScoreIsApproached | monitor/pressure.py:135-154 | n samples of one score leave 0.7^n of the distance to it |
| PressureLevel.LeftBelowTheMargin | monitor/pressure.py:231-249 | a level below critical is left downwards if and only if the smoothed score is more than 0.05 below its entry |
| PressureLevel.GateIsBoundedAndMonotone | monitor/pressure.py:174-229 | the gated score lies between saturation and 1 and rises with saturation and both stalls |
| PressureLevel.NothingIsAddedBelow | monitor/pressure.py:174-229 | without a stall, and up to the low band, the score is the saturation |
| PressureLevel.StallFillsHeadroomFromHigh | monitor/pressure.py:174-229 | from the high band on the stall alone fills the headroom, each kind by its weight, with 0.3 left of what is self-inflicted |
| PressureLevel.HeadroomFillsGradually | monitor/pressure.py:174-229 | between the bands what is added grows with the way from the low to the high one |
| PressureLevel.PressureAnalyzer.ClassifyLevel | monitor/pressure.py:135-154 | returns the smoothed score, 0.7 of the distance away, and its level; a critical raw score passes unsmoothed |
| PressureLevel.PressureAnalyzer.ClassifyDiskPressure | monitor/pressure.py:174-229 | gates, smooths in the same way on its own state and classifies the disks; says exactly when they are stressed |
| DiskPressure.PressureIsBoundedAndMonotone | monitor/disk_pressure.py:570-585 | a disk's pressure is in [0, 1] and rises with each reading |
| DiskPressure.EachReadingHasItsWeight | monitor/disk_pressure.py:570-585 | on an active disk each reading adds its weight, on an idle one only the utilisation, halfway to the mark the others count half |
| DiskPressure.CombinedIsBoundedAndMonotone | monitor/disk_pressure.py:587-636 | the aggregate is between average and 1, at least the weighted worst, and rises with each disk |
| DiskPressure.CombinedExceedsBoth | monitor/disk_pressure.py:587-636 | above both the average and the weighted worst while they leave room; the formula for one disk |
| DiskPressure.Evaluate | monitor/disk_pressure.py:587-636 | one pass gives every disk's pressure, the aggregate and exactly the busy disks |
| NetPressure.NoisyOr | monitor/network.py:74-80 | the loop computes one minus the product of the silences |
| NetPressure.NoisyOrIsBoundedAndMonotone | monitor/network.py:74-80 | in [0, 1], at least each signal, and monotone in each |
| NetPressure.NoisyOrGroups | monitor/network.py:74-80 | the OR of two groups is the OR of their ORs |
| NetPressure.EmaStepsAdd | monitor/network.py:262-269 | two steps on one instant value are one step over both gaps |
| NetPressure.EmaStaysBetween | monitor/network.py:262-269 | the average never leaves the range of its inputs |
| NetPressure.CadenceIsInvisible | monitor/network.py:262-269 | any cadence of samples gives the average of a sampler that wakes at every tick |
| NetPressure.HeldIsTheLargestFaded | monitor/network.py:398-405 | the held distress is exactly the largest past value times decay to its age |
| NetPressure.ScoreRemembersDistress | monitor/network.py:398-413 | over any run the score is in [0, 1] and never below what is left of any past distress |
| NetPressure.AveragesAreTheirOwn | monitor/network.py:262-317 | each average of a direction is the moving average of its own readings |
| NetPressure.EitherLoadRaisesTheScore | monitor/network.py:407-413 | the score is at least the gated average of the bandwidth and at least that of the packet rate |
| NetPressure.QuietScoresZero | monitor/network.py:407-413 | and zero without load and distress |
| NetPressure.NetworkMonitor.Smooth | monitor/network.py:316-317 | one direction's averages move by one step |
| NetPressure.NetworkMonitor.Hold | monitor/network.py:401-405 | one direction's distress decays or is replaced |
| NetPressure.NetworkMonitor.Fuse | monitor/network.py:407-413 | one direction's score is the OR of gated load and distress |
| NetPressure.NetworkMonitor.UpdatePressure | monitor/network.py:272-418 | seeds first, ignores a clock that has not advanced, else ticks each direction on its own readings |
| WindowHistory.WindowIsExact | monitor/network.py:101-115 | after any run the window holds exactly the entries no older than its width |
| WindowHistory.RecentIsASuffix | monitor/network.py:112-115 | cleaning keeps all entries from the cutoff on and none before it |
| WindowHistory.RatioIsAShare | monitor/network.py:116-127 | without resets the ratio is the window's loss over its traffic and lies in [0, 1] |
| WindowHistory.ResetReadsAsNoLoss | monitor/network.py:116-127 | a reset, no traffic or a single entry reads as no loss |
| WindowHistory.WindowDiffHistory.Add | monitor/network.py:107-114 | adds an entry and drops the old ones |
| WindowHistory.WindowDiffHistory.DiffRate | monitor/network.py:116-127 | returns the specified ratio, 0 on a reset |
| NetworkGauge.Gauge | monitor/network_pressure.py:219-260 | the worst capped score's level, none without interfaces, and the interfaces from the medium band on |
| NetworkGauge.GaugeIsWorstCard | monitor/network_pressure.py:208-260 | below the cap the gauge shows the highest level of any card |
| NetworkGauge.GaugeAgreesExactlyBelowTheCap | monitor/network_pressure.py:208-260 | on all snapshots alike if and only if the high band starts no higher than the cap |
| NetworkGauge.GaugeNamesBusyCards | monitor/network_pressure.py:208-260 | the gauge names exactly the interfaces of which a card shows more than low |
| Episodes.PressureLevelTracker.Observe | diagnostics/episodes.py:56-84 | carries out the specified step |
| Episodes.ReportedExactlyWhenSustained | diagnostics/episodes.py:56-84 | a sample reports a change if and only if an unbroken divergence to its side has lasted the dwell time since the last report |
| Episodes.RisesAfterThirtyFallsAfterSixty | diagnostics/episodes.py:31-84 | the service reports a rise after 30 seconds above the band in force, a fall after 60 below it, and nothing else |
| Episodes.ChangesAreChained | diagnostics/episodes.py:56-84 | changes chain from normal, each to another band, each its dwell time after the one before |
| Episodes.ChangesAreRare | diagnostics/episodes.py:56-84 | the dwell times of all changes fit into the run |
| Episodes.AtMostOneChangeInThirtySeconds | diagnostics/episodes.py:31-33 | with the service's dwell times a run of length T reports at most T / 30 changes |
| PeakLatch.SystemPressureMonitor.SafeUpdate | monitor/monitor_api.py:675-720 | installs a reading and raises the peaks, or skips when busy; tells listeners of critical transitions |
| PeakLatch.SystemPressureMonitor.ConsumePeak | monitor/monitor_api.py:803-833 | returns the peaks and resets them to the present levels |
| PeakLatch.ConsumedPeakIsTheHighest | monitor/monitor_api.py:803-833 | a consumed peak is the highest of the level current at the last read and all installed since, from the first window on |
| PeakLatch.SpikeIsConsumed | monitor/monitor_api.py:803-833 | no spike is hidden by what was installed around it |
| PeakLatch.OrderIsSeverity | monitor/monitor_api.py:675-720 | levels are ranked by severity, anything else below low |
| PeakLatch.ConsumedScoreIsNewest | monitor/monitor_api.py:803-833 | the score that goes with a consumed peak is the newest one |
| PeakLatch.NewsAlternates | monitor/monitor_api.py:696-707 | listeners hear alternately of entering and leaving critical, and the last news is true |
| SectionStamp.MonitorSettings.SectionsUpdatedAt | monitor/monitor_api.py:365-401 | stamps a changed list, keeps the stamp otherwise and when the write fails |
| SectionStamp.AnswersRise | monitor/monitor_api.py:365-401 | answers never go back, whatever clock and writes do |
| SectionStamp.StampTellsChange | monitor/monitor_api.py:365-401 | while writes succeed two answers are equal if and only if the list stayed the same |
| SectionStamp.ChangeIsStampedNow | monitor/monitor_api.py:365-401 | a changed list is stamped with the clock, or one above the last stamp |
| QuietMode.QuietModeManager.IsActive | utils/quiet_mode.py:70-81 | held, gate up and lease running |
| QuietMode.QuietModeManager.Enter | utils/quiet_mode.py:85-117 | renews a live hold of the same owner, else begins a new one |
| QuietMode.QuietModeManager.Exit | utils/quiet_mode.py:119-137 | releases for the holder or by force, and says whether it did |
| QuietMode.QuietModeManager.Heartbeat | utils/quiet_mode.py:139-151 | renews the holder's running lease |
| QuietMode.QuietModeManager.SetGate | utils/quiet_mode.py:155-168 | moves the gate of a hold and remembers a drop |
| QuietMode.QuietModeManager.HeldClean | utils/quiet_mode.py:170-173 | held, and the user has not dropped the gate in this hold |
| QuietMode.QuietModeManager.LookExpired | utils/quiet_mode.py:235-246 | the watchdog's look: a hold whose lease has run out |
| QuietMode.ActiveExactly | utils/quiet_mode.py:70-151 | over any run, active if and only if the current hold was leased without a gap up to now and its latest gate setting is up |
| QuietMode.LeaseLastsExactly | utils/quiet_mode.py:70-151 | a hold is active up to the end of its lease, and a heartbeat makes it last the manager's lease from then on |
| QuietMode.HeldCleanExactly | utils/quiet_mode.py:155-173 | clean if and only if the current hold has seen no gate drop |
| QuietMode.ExpiredStaysDown | utils/quiet_mode.py:139-151 | an expired lease is never revived by anything but an entry |
| QuietMode.StrangersChangeNothing | utils/quiet_mode.py:119-151 | heartbeats and releases of others change nothing |
| QuietMode.OldHoldIsOver | utils/quiet_mode.py:235-246 | a hold that looked expired has a gap in its lease ever after |
| QuietMode.WatchdogEndsANewHoldExactly | utils/quiet_mode.py:235-246 | whatever runs between look and release, the release ends active quiet mode if and only if a hold entered in between is in place, leased without a gap and with its gate up |
| QuietMode.WatchdogMayEndANewHold | utils/quiet_mode.py:235-246 | every entry between look and release is undone while its lease runs |
| LoginLimiter.Limiter.RateLimited | smartune_api.py:187-204 | lifts a past lockout, drops stale failures, touches no other address |
| LoginLimiter.Limiter.RecordFailure | smartune_api.py:207-230 | adds a failure and locks at the twentieth fresh one |
| LoginLimiter.Limiter.ClearFailures | smartune_api.py:233-236 | forgets the address and no other |
| LoginLimiter.Limiter.Login | smartune_api.py:239-275 | check, clear or record in the order of the handler |
| LoginLimiter.StoredListIsShort | smartune_api.py:207-230 | over any run fewer than 20 failures are stored |
| LoginLimiter.SuccessForgets | smartune_api.py:233-236 | after a success the address behaves as if new |
| LoginLimiter.FailuresArePaced | smartune_api.py:187-230 | a failure locks if and only if it is the twentieth fresh one since the last lockout, and 30 seconds pass after a lockout |
| LoginLimiter.TwentiethLocks | smartune_api.py:187-230 | a failure locks if and only if 19 others since the last lockout are less than 60 seconds old |
| LoginLimiter.LimitedExactly | smartune_api.py:187-204 | an attempt is turned away if and only if the latest failure locked the address less than 30 seconds before |
| LoginLimiter.FortyTakeAWindow | smartune_api.py:187-230 | a failure and the fortieth after it are at least 60 seconds apart |
| LoginLimiter.AtMostFortyPerWindow | smartune_api.py:187-230 | any half-open 60 second window holds at most 40 recorded failures |
| LoginLimiter.FortyAreReached | smartune_api.py:187-230 | and 40 can occur |
| ConfigRevision.ClassifyAndDiff | diagnostics/config_revision.py:96-142 | the loop gives the specified statuses and changes |
| ConfigRevision.ChangesAreTheDifference | diagnostics/config_revision.py:96-142 | the changes are exactly the fields whose last known value differs, with both values, none twice |
| ConfigRevision.StatusInClosedForm | diagnostics/config_revision.py:96-142 | a field's status depends on its last two reads and on whether it ever answered |
| ConfigRevision.RemovedAfterTwoMisses | diagnostics/config_revision.py:96-142 | removed is reported if and only if two misses follow an answer |
| ConfigRevision.KindTellsHistory | diagnostics/config_revision.py:96-142 | which kind of change is reported, by what the field answered before |
| RevisionChain.RevisionStore.EnsureBaseline | diagnostics/config_revision.py:158-179 | creates the baseline in an empty store only |
| RevisionChain.RevisionStore.CheckAndRecordIfChanged | diagnostics/config_revision.py:211-283 | reconfirms or extends the chain and emits exactly the stored changes |
| RevisionChain.ChainRebuildsTheView | diagnostics/config_revision.py:211-252 | folding the summaries from the baseline gives every revision's view, whatever the clock did and whichever writes failed |
| RevisionChain.ChainIsLinearExactly | db/DatabaseModel.py:1003-1015 | each revision follows the one stored before it if and only if no revision but the last is older than one stored earlier |
| RevisionChain.OrderKeepsHead | db/DatabaseModel.py:1003-1015 | while revisions are stored in order of time the last one is in force at every check |
| RevisionChain.SteadyClockKeepsOrder | diagnostics/config_revision.py:211-252 | a clock that never steps back stores them in order |
| RevisionChain.StatusFollowsStoredReads | diagnostics/config_revision.py:211-252 | while the last revision is in force at every stored check, its status is the one the stored checks alone give |
| RevisionChain.ChangeRepeatsExactly | db/DatabaseModel.py:1003-1015 | two checks that read the same record the same changes twice if and only if the clock of the first was behind the revision in force |
| RevisionChain.ClockSetBackRepeatsAChange | db/DatabaseModel.py:1003-1015 | a run of three checks where this happens |
| PmtCounters.StoredIsRead | monitor/pmt_telemetry.py:280-286 | a number stored in bytes reads back modulo its width |
| PmtCounters.CounterReads | monitor/pmt_telemetry.py:280-286 | bits 63:0 and 31:0 of a container are the count modulo 2^64 and 2^32 |
| PmtCounters.DifferencesAddUp | monitor/pmt_telemetry.py:422-423 | wrapped differences add up to the true traffic if and only if no interval carried a whole wrap |
| PmtTraffic.TrafficIsConserved | monitor/pmt_telemetry.py:436-481 | over any run, what the sampler returns for a flow, multiplied out, never exceeds the true traffic of the intervals it measured, and equals it if and only if none of them carried a whole wrap |
| PmtTraffic.GaplessRunMovesEverything | monitor/pmt_telemetry.py:563-621 | without failed reads and standing clocks the measured intervals are the whole run |
| PmtTraffic.StepReturns | monitor/pmt_telemetry.py:563-621 | a round returns a reading if and only if its interval could be computed and the sampler is not disabled, with the true rate of every measured flow |
| PmtTraffic.GpuIdleCountsTicks | monitor/pmt_telemetry.py:425-433 | the GPU sleeps if and only if every residency counter truly rose for 95 percent of the ticks; above 110 percent the answer is unknown |
| PmtTraffic.GuardNeverDisablesShipped | monitor/pmt_telemetry.py:178-246 | over any run a shipped platform is disabled if and only if a region was too short |
| PmtSampler.SpanIsExact | monitor/pmt_telemetry.py:512-518 | the length check lets through exactly the regions no counter read fails on |
| PmtSampler.PmtBandwidthSampler.Take | monitor/pmt_telemetry.py:563-621 | carries out the specified sampling step; a GPU without counters is what the IO traffic, or the cache's when estimated, leaves beside the others |
| PmtSampler.PmtBandwidthSampler.LearnIoFloor | monitor/pmt_telemetry.py:623-629 | moves the floor a fifth of the way to the idle IO traffic that is not the NPU's, and otherwise not at all |
| PmtSampler.ReturnedGpu | monitor/pmt_telemetry.py:436-481 | without GPU counters gpu, npu and floor add up to the IO traffic, or with the CPU to the cache's, and gpu is zero exactly when nothing is left or it sleeps |
| PmtSampler.ImplausibleExactly | monitor/pmt_telemetry.py:563-621 | a reading is implausible if and only if there is 1 GB/s of cache traffic and CPU and IO differ from it by more than a fifth |
| PmtRuns.DisabledAfterFiveInARow | monitor/pmt_telemetry.py:563-621 | disabled if and only if some region was too short, or unverified with five implausible computed readings in a row |
| PmtRuns.DisabledAtTheFifth | monitor/pmt_telemetry.py:563-621 | by the very reading that completes the row |
| PmtRuns.FloorStaysInHull | monitor/pmt_telemetry.py:623-629 | the floor is the running average of the plausible GPU-idle observations and stays in their hull with the seed |
| IoStat.Deltas | monitor/cgroup.py:128-174 | the usages of the groups known before, totals equal to the per-device sums |
| IoStat.GroupDeltas | monitor/cgroup.py:152-173 | one group's devices with I/O and their sum |
| IoStat.WindowsAddUp | monitor/cgroup.py:128-174 | for growing counters the totals of two windows in a row are those of the one over both |
| IoStat.DeviceWindowsAddUp | monitor/cgroup.py:128-174 | and so are the counts of every device |
| IoStat.UsagesAddUp | monitor/cgroup.py:128-174 | the same for every group of whole snapshots that the first one knows; a later group is in no window that begins before it |

## Left out

- Reading and writing files, JSON, SQLite and locks: tables are sequences, files are sequences of lines, each locked operation is one step with one reading of the clock.
- Floating point: scores are exact reals before rounding, the logistic curve is any function, tick counts and stamps are integers where they are exponents or ranks; float values in YAML and `:g` formatting are not modelled.
- ISO time strings are integers in the order of time; unparsable stamps are not modelled.
- YAML beyond what the editor writes: block mappings with nested blocks, multi-line scalars and anchors; the reader covers the flow subset and one-line fields.
- Removal filters on list or mapping values: `str()` of those is not modelled, so a removal is stated for scalar fields.
- The pagination and ordering of lifecycles and alerts with equal stamps; rows are kept in insertion order.
- Deleting resolved alert rows, which also ends a mark, and old episodes (db/DatabaseModel.py:818-829, db/DatabaseModel.py:897-906).
- The alert policy and rule tables and the names they hold are inputs to `Evaluate`; how an event type names the fault it recovers is an input too.
- How network utilisation and distress are read off the counters: `UpdatePressure` takes each direction's readings of a round; the ratios come from `WindowHistory`.
- Sysfs, procfs, PMU and PSI readings, media detection, the disk card rollup (monitor/disk_pressure.py:681-743) and the memory gate of the pressure score.
- Listeners of level changes below critical, and constants of the network model that are changed while a monitor runs.
- Database errors while reading: only writes may fail.
- Card texts, loss percentages and the alphabetical tie-break of the worst interface.
- The configuration validators, section projection and metrics buckets (diagnostics/metrics.py:116-176): each a reading of one function.
- Which hardware and software fields an inventory has: any fixed list of fields, values compared as texts; fingerprints are not modelled.
- Quiet-mode preflight blockers, the wall-clock start of a hold and the watchdog's polling; a forced exit stands for its release.
- Concurrent login requests of one address: a request runs from its check to its answer.
- Decoding of NPU power, temperature and frequency (monitor/pmt_telemetry.py:341-379).
- AlertRuns.NoticesKeepTheCooldown: assumes that the clock never goes back and that one cooldown is used throughout.
- LedgerRetention.RetentionIsInvisible: assumes alternation and no reboot marker, because a FAILED without APPLIED breaks the count (see the findings).
- ConfigLocality.RunLeavesTheRest: speaks of the list of lines; that a file splits into the same lines again is `ConfigFile.StepTerminated`, for entries whose values hold no line break.
- AlertEscalation.EscalationInTheProgram: rules are those of `Evaluate`; an escalation that fails in the database is not modelled.
- ConfigFile.RunStaysInSync: a bare header over an empty block counts as the empty list, as the program takes an unset list; when a file has one is `EmptySection.NullExactly`.
- ScalarReadBack.ReadsBackExactly: speaks of the line alone, so of leaves without deeper lines below them, with a key that holds no colon; values of other types than None, booleans, integers and texts are not modelled.
- QuietMode.QuietModeManager.Enter: reads the clock once, where the program reads it again for the new deadline; so does `WindowHistory.WindowDiffHistory.Add` for the cutoff.
- AlertHistory.SweepClosesExactly: a report that only waits does not renew an open alert, as in the code (db/DatabaseModel.py:593-628); in the program it is always followed by the fire.
- RevisionChain.ChainRebuildsTheView: assumes that every check reads the same fields, as the two views do; a field dropped by a new program version would leave no change behind.
- IoStat.WindowsAddUp: assumes that no device line disappears between the snapshots and no cgroup is recreated.
