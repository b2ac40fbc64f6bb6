# infra_tools: verified models of the state-changing cores

infra_tools provisions and maintains Debian hosts. Eight parts of it keep promises that
a finite set of tests cannot settle, because they are about every input, every
interleaving, or every place where a process can be killed. This project models those
parts in Dafny and proves the promises.

| part of infra_tools | files here |
|---|---|
| reversible network transition (`common/network_steps.py`) | `Ifupdown`, `IfupdownPattern`, `NetworkStore`, `NetworkRestore`, `NetworkConfluence`, `NetworkResume`, `NetworkRendered`, `NetworkLive`, `NetworkTransition`, `NetworkHost` |
| concurrent operation manager (`lib/concurrent_operations.py`) | `OperationQueue`, `OperationManager`, `LockManager` |
| ranged ZIP reader (`common/godot_steps.py`) | `ZipFormat`, `ZipReader` |
| JSONC normaliser (`common/browser_automation_steps.py`) | `Jsonc`, `JsonText`, `JsoncMeaning` |
| VM disk preparation (`common/storage_steps.py`) | `VmStorage` |
| APT source repair (`lib/apt_sources.py`) | `AptText`, `AptStanzas`, `AptSources`, `AptPrinted`, `AptRepair`, `AptOutcome`, `AptRerun`, `AptHost` |
| rolling update (`lib/cluster_update.py`) | `ClusterUpdate` |
| numbered firewall rules (`common/t3code_steps.py`) | `Firewall` |

`PyText` holds the string operations shared by the text rewriters, `Wrappers` the option
and result types. `dafny verify dfyconfig.toml` checks everything.

## How the models are built

* Code that changes things step by step is imperative here too: classes with the source's
  fields (`NetworkHost.Host`, `OperationQueue.OperationDeque`, `LockManager.SimpleLockManager`,
  `VmStorage.Guest`, `AptHost.AptDirectory`, `Firewall.Ufw`) and methods with the source's
  loops, each proved against a specification. Interleavings and crash points are a state
  machine over events (`OperationManager`, `NetworkTransition`).
* A command or an atomic file write either happens completely or has no effect. A call that
  fails or is killed is a call that completes only some of its steps; how many is a parameter,
  so every statement holds for all of them. Process death is modelled, power loss is not.
* Answers of the outside world (audits, `ufw`, refused commands, foreign locks, fresh UUIDs)
  are parameters.

## What the proofs found

Properties the code does not have are stated with a concrete failing case and the exact
condition under which they hold.

* A snapshot reads in text mode, so an abort restores a captured file exactly when it has no
  carriage return (`NetworkRestore.NormalExactlyWhen`).
* `finalize` and `commit` accept a committed record whose abort was interrupted. What stays is
  then a mixture (`NetworkTransition.HalfAbortThenFinalizeMixes`); over all runs and for every
  backend it is the old or the new configuration exactly under the conditions of
  `NetworkTransition.HalfAbortedExactlyWhen`: no captured link is missing, and what has been
  undone, or what has not, is the same in both.
* A rollback killed between removing a symbolic link and recreating it leaves neither. A commit
  that starts then loses the link (`NetworkTransition.KilledRollbackThenCommitMixes`, with a concrete
  host in `NetworkTransition.LinkedHostMixes`); it ends where an undisturbed one ends exactly when no
  captured link is missing whose loss makes a difference (`NetworkResume.ResumeEndsExactlyWhen`). For
  the main file that is when text or backup come out otherwise without it
  (`NetworkResume.MissingMainIsLost`).
* A link listed before the file that it leads to, when that file holds a stanza of the interface, is
  replaced by the first commit and left alone by one that follows a killed rollback, even one that
  has put the link back (`NetworkTransition.SharedTextDiverges`,
  `NetworkTransition.SharedTextThenCommitMixes`). Links to what persisting does not change, inside
  or outside the configuration, are harmless and covered by the theorems.
* Failures of the undo commands are ignored, so an abort is exact on the live state exactly when
  no command with something to remove was refused (`NetworkLive.LiveUndoIsExact`).
* A connection name with a control character is captured but refused by the loader, and the
  transition can then not be aborted (`NetworkTransition.RecordAcceptedExactlyWhen`,
  `NetworkTransition.PendingLoads`).
* `copy2` onto a dangling backup link creates the file it names. A copy stays within the backup
  exactly when the link does not dangle (`NetworkRestore.CopyConfinedExactlyWhen`), a persist
  stays within the captured paths exactly when none of its copies goes through such a link out of
  them (`NetworkRestore.PersistConfinedExactlyWhen`), and a restore leaves the file behind
  (`NetworkRestore.DanglingBackupEscapes`). Backup links that lead to something, and dangling ones
  of files without a stanza, are harmless. Whatever the links, an abort ends at the base exactly
  when no captured file has a carriage return and no file beside the captured ones has changed
  (`NetworkTransition.AbortRestores`).
* An indented include line below a stanza of the interface is lost with the stanza
  (`Ifupdown.IndentedIncludeIsLost`).
* The operation manager excludes overlapping paths only while check-then-acquire is not
  interleaved with another worker's (`OperationManager.SplitStartBreaksExclusion`), and only if
  an operation names each path once (`OperationManager.RepeatedPathReleasesAnothersLock`). An
  operation without paths is never run (`OperationManager.NoPathsNeverRuns`).
* Removing trailing commas is idempotent except on a doubled one
  (`Jsonc.TrimIsIdempotentExactlyWhen`).
* A managed APT file that alone provides one archive while the other is missing is rewritten
  with the missing one only; the run fails, and so does every later one
  (`AptRepair.NotConfiguredExactlyWhen`, `AptRepair.HalfManagedFails`, `AptRepair.HalfManagedNeverRecovers`).
* A deb822 stanza whose `Enabled` field is there but empty stops every run before it changes
  anything, and nothing else stops one so (`AptRepair.RunStopsExactlyWhen`, `AptRepair.EmptyEnabledStops`).
* A repair of APT sources killed between two file rewrites and run again succeeds exactly when the
  undisturbed run does, but takes the components from what the killed run has left; it ends in the
  same directory exactly when these are the same or the managed file is not written
  (`AptRerun.KilledRunRecovers`), and otherwise forgets the components of a disabled CD-ROM
  (`AptRerun.KilledRunForgets`).
* A local record of the greatest possible size has its end mistaken for a ZIP64 marker when the
  one-member archive is read back (`ZipReader.OneMemberArchiveReparses`, `ZipReader.GreatestRecordIsRefused`).
* A new partition may reveal what the disk held before. A run from a state on track in which no step
  fails succeeds exactly when that is nothing or a filesystem that the mount adopts
  (`VmStorage.Guest.SetupVmStorage`); anything else keeps the mount from ever being completed
  (`VmStorage.UnfitIsFinal`).

## Model

| member | source | states |
|---|---|---|
| Ifupdown.StripIfupdownStanzas | common/network_steps.py:295-310 | the loop computes the text without the interface's stanzas |
| Ifupdown.NoHeaderIsKept | common/network_steps.py:302-309 | no stanza header of the interface is left |
| Ifupdown.KeptExactly | common/network_steps.py:302-309 | a line is kept exactly when some occurrence of it stands outside the interface's stanzas |
| Ifupdown.StripIsIdempotent | common/network_steps.py:295-310 | stripping twice is stripping once |
| Ifupdown.StripFixes | common/network_steps.py:339-340 | a text is left alone exactly when it has no stanza of the interface |
| IfupdownPattern.HeaderExactlyWhen | common/network_steps.py:296-298 | a line is a header exactly when the pattern matches it, character by character |
| IfupdownPattern.InStanzaExactlyWhen | common/network_steps.py:301-309 | a line belongs to a stanza exactly when it is a header or only blank and indented lines lie between it and one |
| IfupdownPattern.IncludeExactlyWhen | common/network_steps.py:352-356 | a line is an include exactly when the pattern matches it |
| Ifupdown.AppendedInclude | common/network_steps.py:344-359 | the appended include line is found again and is never part of a stanza |
| Ifupdown.IncludeSurvives | common/network_steps.py:295-359 | stripping keeps an include exactly when one stands outside the interface's stanzas |
| Ifupdown.ConfiguringTwiceExactlyWhen | common/network_steps.py:295-359 | configuring the main file again changes nothing exactly when it had no include line or has one outside the interface's stanzas |
| Ifupdown.IndentedIncludeIsLost | common/network_steps.py:301-309 | an indented include below a stanza header is removed with the stanza |
| NetworkStore.UniversalExact | common/network_steps.py:516-522 | text-mode reading keeps a text exactly when it has no carriage return |
| NetworkStore.UniversalConcat | common/network_steps.py:516-522 | each kind of line break becomes one, and nothing else changes |
| NetworkRestore.CopyConfinedExactlyWhen | common/network_steps.py:313-319 | making a backup changes the backup alone exactly when the backup is not a dangling link to elsewhere |
| NetworkRestore.StepWrites | common/network_steps.py:313-414 | with links as in a base where no backup of a file to be rewritten dangles, each step changes only the path it names and keeps it so |
| NetworkRestore.PersistConfinedExactlyWhen | common/network_steps.py:525-571 | whatever the links, every prefix of a persist stays within the captured paths exactly when no copy goes through a dangling link out of them |
| NetworkRestore.LogCoversFootprint | common/network_steps.py:214-263 | every prefix of a persist changes only captured paths and rollback properties, for each backend, where no backup of a file to be rewritten dangles |
| NetworkRestore.RestoreAllShows | common/network_steps.py:672-707 | after a restore every listed path shows its snapshot and no other path has changed |
| NetworkRestore.RestoreUndoes | common/network_steps.py:693-707 | from anywhere within the rollback's reach a complete restore gives the base back, line breaks of captured files aside |
| NetworkRestore.NormalExactlyWhen | common/network_steps.py:516-522 | the restored files are the captured ones exactly when none has a carriage return |
| NetworkRestore.DanglingBackupEscapes | common/network_steps.py:313-320 | a copy through a dangling link out of the captured paths, for any rewritten file, creates a file that a complete restore leaves behind |
| NetworkConfluence.InterfaceOnlyInManagedFile | common/network_steps.py:323-404 | after persisting, only the managed file has a stanza of the interface, and the main file includes it |
| NetworkConfluence.IfupdownPrefix | common/network_steps.py:397-404 | interrupting the ifupdown steps anywhere leaves a state to resume from |
| NetworkConfluence.IfupdownRun | common/network_steps.py:397-404 | run to the end from any such state, the steps make the same files: each rewritten once, with its original in the backup unless one was there |
| NetworkConfluence.IfupdownResumes | common/network_steps.py:397-404 | confluence: an interrupted configuration run again gives what one uninterrupted run gives |
| NetworkConfluence.BackupHoldsOriginal | common/network_steps.py:313-320 | a changed file has its original in its new backup, an unchanged one gets none |
| NetworkResume.KeepsIncludeExactlyWhen | common/network_steps.py:344-359 | rewriting the main file keeps an include exactly when it had none or has one outside the interface's stanzas |
| NetworkResume.NetworkManagerPersists | common/network_steps.py:214-263 | the commands set each requested family's properties and the name servers of each family, and nothing else |
| NetworkRendered.ManagerSays | common/network_steps.py:214-263 | property by property: manual method, address, gateway and default route of a requested family, the name servers of each family, all else as before |
| NetworkRendered.CommasAreRead | common/network_steps.py:251-259 | name servers joined with commas are read back |
| NetworkRendered.NetworkdSays | common/network_steps.py:266-284 | networkd's file matches the interface and gives each address, gateway and server in order, and DHCP and router advertisements only for a family without an address |
| NetworkRendered.NetworkdPersists | common/network_steps.py:287-292 | networkd's backend leaves that text, and changes no file but this one and cloud-init's |
| NetworkRendered.PersistDisablesCloudInit | common/network_steps.py:407-414 | every backend ends with telling cloud-init, where it is there, to leave the network alone |
| NetworkRendered.CloudInitSays | common/network_steps.py:407-414 | and what it is told |
| NetworkRendered.IfupdownSays | common/network_steps.py:362-394 | ifupdown's file brings the interface up with one stanza for each family, static with address and gateway or automatic, and the servers with the first |
| NetworkResume.PersistIsTame | common/network_steps.py:417-436 | persisting writes only captured paths and rollback properties of the captured connection |
| NetworkResume.UndoIsTame | common/network_steps.py:672-707 | restoring writes only captured paths and properties |
| NetworkResume.TameStaysInReach | common/network_steps.py:417-436 | every prefix of such a program leaves a state the rollback can undo |
| NetworkResume.PersistKeepsResume | common/network_steps.py:417-436 | interrupting a persist anywhere leaves a state to resume from, for every backend |
| NetworkResume.RestorePrefixResumable | common/network_steps.py:672-707 | interrupting the restore of the ifupdown files, each before its backup, leaves a state to resume from once missing links are put back |
| NetworkResume.UndoKeepsResume | common/network_steps.py:693-707 | interrupting a restore anywhere leaves a state to resume from, for every backend |
| NetworkResume.ResumeEnds | common/network_steps.py:417-436 | from wherever interruptions leave it with no captured link missing, a complete persist ends where it ends from the base; links may lead to what persisting does not change |
| NetworkResume.ResumeEndsExactlyWhen | common/network_steps.py:417-436 | it ends there exactly when no captured link is missing but for files written anyway and a main file that is made the same without it |
| NetworkResume.MissingMainIsLost | common/network_steps.py:344-359 | when a missing main file would come out otherwise, in text or backup, than from the link it was, persisting ends elsewhere |
| NetworkResume.UndoEnds | common/network_steps.py:693-707 | whatever the files, a complete restore ends at the base exactly when no captured file has a carriage return and no other file differs |
| NetworkLive.SelectPolicyTable | common/network_steps.py:464-495 | the first table of the range that is no rule's priority or numeric target and holds no route; none exactly when each is taken |
| NetworkLive.StartedIsUnderway | common/network_steps.py:757-789 | from every prefix of the live steps, only recorded additions differ from the state before prepare |
| NetworkLive.LiveStepsStart | common/network_steps.py:757-789 | all live steps leave each family with its requested address, one more rule at its place, and in the table the network and the default route; on the way no rule leads to a table that is not filled |
| NetworkLive.UndoStaysGuarded | common/network_steps.py:945-977 | on the way back neither, as long as no command is refused |
| NetworkLive.UndoneExactlyWhen | common/network_steps.py:945-976 | undoing one family is exact exactly when no refused command had something to remove |
| NetworkLive.UndoneSparesTheRest | common/network_steps.py:945-976 | undoing removes nothing but the recorded rule, the routes of the recorded table and the recorded address |
| NetworkLive.HarmlessStaysUnderway | common/network_steps.py:945-976 | an undo interrupted anywhere, with any commands refused, can be undone again |
| NetworkLive.LiveUndoIsExact | common/network_steps.py:945-976 | undoing both families gives the state before prepare exactly when no refused command had something to remove |
| NetworkTransition.LoadedGoals | common/network_steps.py:854-892 | the loaded record asks to undo exactly what prepare chose |
| NetworkTransition.RecordAcceptedExactlyWhen | common/network_steps.py:740-755 | what prepare or commit writes is accepted by the loader, in both states, exactly when the connection name is printable |
| NetworkTransition.AcceptedIsConfined | common/network_steps.py:574-893 | whatever record the loader accepts, undoing it writes only files of its backend, rollback properties of one connection, requested addresses and tables of the range |
| NetworkTransition.OnlyItsOwn | common/network_steps.py:895-900 | a call for another transition than the pending one changes nothing |
| NetworkTransition.PendingLoads | common/network_steps.py:795-900 | a pending record loads for its own identity exactly under that condition |
| NetworkTransition.StepKeepsPending | common/network_steps.py:710-989 | every call, completed or not, keeps everything it changed within the reach of the pending record |
| NetworkTransition.AbortRestores | common/network_steps.py:936-977 | from every reachable state, whatever the links, a complete abort restores the configuration and the live state, each under its exact condition |
| NetworkTransition.FailedCommitRestores | common/network_steps.py:903-929 | from every reachable state, a commit that fails at any step and rolls back to the end leaves record and live state, and restores the configuration |
| NetworkTransition.TransitionCompletes | common/network_steps.py:710-989 | undisturbed, prepare, commit and finalize leave no record, the persisted configuration and both families started |
| NetworkTransition.StepKeepsCourse | common/network_steps.py:903-989 | every orderly call keeps a transition able to go either way, and a committed one fully persisted until an abort begins |
| NetworkTransition.TransitionIsAtomic | common/network_steps.py:710-989 | over all orderly runs from a steady base (commits start with no captured link missing, finalize before any abort), whenever no record exists the configuration is the one before prepare or the fully persisted new one |
| NetworkTransition.UndoKeepsMixed | common/network_steps.py:693-707 | an abort of a committed transition stopped anywhere leaves each path new, old, or a removed link, by what has been undone |
| NetworkTransition.HalfAbortedExactlyWhen | common/network_steps.py:980-989 | over all careful runs, for every backend: what remains without a record is the new (or old) configuration exactly when no captured link is missing and what was (or was not) undone is the same in both |
| NetworkTransition.KilledRollbackThenCommitMixes | common/network_steps.py:903-927 | from every steady base with such a link: a failed commit whose rollback is killed after removing it, a second commit and finalize end in neither configuration |
| NetworkTransition.LinkedHostMixes | common/network_steps.py:903-927 | a concrete ifupdown host, its main file a link to an empty file, on which such a run ends in neither configuration |
| NetworkTransition.SharedTextDiverges | common/network_steps.py:323-341 | with the link back and the file it shares still rewritten, a complete persist ends neither at the base nor where the first one ended |
| NetworkTransition.SharedTextThenCommitMixes | common/network_steps.py:903-1000 | from every base with a link listed before a stanza file it leads to, a run with all links in place at its second commit ends in neither configuration |
| NetworkTransition.HalfAbortThenFinalizeMixes | common/network_steps.py:980-989 | commit, an abort killed after its first file, and finalize end in neither configuration |
| NetworkHost.ValidateRollback | common/network_steps.py:592-669 | the validator accepts exactly the well-formed rollbacks |
| NetworkHost.ValidateSnapshots | common/network_steps.py:634-669 | the loop with its set of seen paths accepts exactly distinct, allowed, well-formed snapshots with all required paths |
| NetworkHost.Validate | common/network_steps.py:795-881 | the loader accepts exactly the records of the specification |
| NetworkHost.Host.BackUp | common/network_steps.py:313-319 | a file is copied to its backup unless one exists |
| NetworkHost.Host.Perform | common/network_steps.py:313-414 | each command and file operation has its specified effect and no other |
| NetworkHost.Host.PrepareAnew | common/network_steps.py:720-789 | without a record it is the prepare event of the state machine, and when complete both families are started as requested; without a table or a capture it changes nothing |
| NetworkHost.Host.Prepare | common/network_steps.py:710-792 | the whole call, on any host, is a run of the state machine: abort of a pending record, prepare, and abort again when a live step fails; on success both families are started as requested, and the record names their tables |
| NetworkHost.Host.Commit | common/network_steps.py:903-929 | the commit event; for another identity it changes nothing |
| NetworkHost.Host.Abort | common/network_steps.py:936-977 | the abort event; for another identity it changes nothing |
| NetworkHost.Host.Finalize | common/network_steps.py:980-989 | the record goes exactly when it loads and is committed; for another identity nothing changes |
| OperationQueue.OperationDeque.Enqueue | lib/concurrent_operations.py:211-233 | refuses a closed or full queue and a known id, else inserts before the first entry of lower priority |
| OperationQueue.OperationDeque.Dequeue | lib/concurrent_operations.py:235-245 | takes the head of the deque |
| OperationQueue.OperationDeque.Remove | lib/concurrent_operations.py:256-263 | removes the entry with the id, and says whether there was one |
| OperationQueue.EnqueueKeepsValid | lib/concurrent_operations.py:211-233 | enqueueing keeps the order, the bound and distinct ids, and adds exactly the operation |
| OperationQueue.RemoveKeepsValid | lib/concurrent_operations.py:256-263 | removal keeps them and takes out exactly the entry with the id |
| OperationQueue.FirstIsHead | lib/concurrent_operations.py:235-245 | the head is the one entry every other comes after |
| OperationQueue.QueueRefinesBag | lib/concurrent_operations.py:211-263 | after any calls the deque lists the specified bag by descending priority and then latest enqueue time |
| LockManager.SimpleLockManager.AcquireLock | lib/concurrent_operations.py:155-171 | yes for a path this process holds already, otherwise only when no other process holds it |
| LockManager.SimpleLockManager.ReleaseLock | lib/concurrent_operations.py:173-183 | the path is no longer held |
| LockManager.SimpleLockManager.CheckLocked | lib/concurrent_operations.py:185-197 | locked exactly when held by anyone |
| LockManager.SimpleLockManager.AcquireOperationLocks | lib/concurrent_operations.py:450-470 | all paths or, after a refusal, none of those just taken |
| OperationManager.PendingIsExact | lib/concurrent_operations.py:322-402 | in every interleaving, ids used again included, outside a submitter's section the pending count is exact and the clamp never acts |
| OperationManager.IdleMeansIdle | lib/concurrent_operations.py:383-396 | in every interleaving the waiter sees zero exactly when nothing is queued, in hand or uncounted |
| OperationManager.CallbacksRunAtMostOnce | lib/concurrent_operations.py:330-376 | with fresh ids every operation is called at most once and meets at most one end |
| OperationManager.OperationsAreAccounted | lib/concurrent_operations.py:211-402 | in every run with distinct ids an accepted operation is queued or open in a hand until it has ended, and ends exactly once |
| OperationManager.OperationRuns | lib/concurrent_operations.py:322-402 | from every state with an idle worker and an empty open queue, an operation with free paths can run to either end, leaving locks, running operations and count as before |
| OperationManager.RequeueFailsOnlyWhenFullOrClosed | lib/concurrent_operations.py:341-349 | an operation put back is refused only by a full or closed queue |
| OperationManager.NoPathsNeverRuns | lib/concurrent_operations.py:341-349 | an operation without paths is never called |
| OperationManager.PathExclusion | lib/concurrent_operations.py:407-470 | with check-then-acquire undisturbed, the held locks are exactly the running operations' paths, without overlap |
| OperationManager.SplitStartBreaksExclusion | lib/concurrent_operations.py:155-157 | any two operations that share a path run together when two workers interleave check and acquire |
| OperationManager.RepeatedPathReleasesAnothersLock | lib/concurrent_operations.py:371-372 | any operation that names a path twice releases the lock another worker took meanwhile, even with starts of one step |
| ZipReader.FindLast | common/godot_steps.py:367-382 | the greatest position of the signature below the limit |
| ZipReader.EndSignatureDoesNotOverlap | common/godot_steps.py:367-382 | moving the limit to a match skips no other match |
| ZipReader.FindEndRecord | common/godot_steps.py:367-382 | the greatest position whose comment reaches exactly to the end |
| ZipReader.TailSearchIsExact | common/godot_steps.py:469-481 | searching the tail finds what searching the whole archive finds |
| ZipReader.ReadEntry | common/godot_steps.py:395-458 | one turn of the directory loop, on arbitrary bytes |
| ZipReader.ParseCentralDirectory | common/godot_steps.py:385-460 | the loop with its checks and errors |
| ZipReader.SelectRecordsExact | common/godot_steps.py:414-451 | selection succeeds exactly when everything is readable and no expected name comes twice |
| ZipReader.ParseConcatenated | common/godot_steps.py:385-460 | concatenated records are accepted exactly when readable with each expected name once, and mapped to their own fields |
| ZipReader.ParsePrinted | common/godot_steps.py:385-460 | the parser inverts the printer of section 4.3.12 of APPNOTE.TXT |
| ZipReader.FetchDirectory | common/godot_steps.py:500-523 | the tail slice and the separate range give the same directory bytes |
| ZipReader.ReadRemoteDirectory | common/godot_steps.py:463-528 | over any bytes: where the last end record has its directory, the answer is the members of exactly the records it counts, given when all are readable and each expected name comes once; nothing is read where there is none; a written archive gives each name its own offset and size |
| ZipReader.WrittenArchiveIsRead | common/godot_steps.py:385-528 | the reader inverts the writer of any number of entries, with anything before them and any comment |
| ZipReader.WrittenLocalRecord | common/godot_steps.py:545-575 | a member that points to a written local record gets its header, name, extra field and data, and no more |
| ZipReader.Utf8FlagIsBit | common/godot_steps.py:420 | names are decoded as UTF-8 exactly when bit 11 is set |
| ZipReader.RequestMember | common/godot_steps.py:540-576 | the request succeeds exactly when the local record is there, and then covers it |
| ZipReader.PackInto | common/godot_steps.py:577-578 | four bytes of the buffer become the little-endian value |
| ZipReader.BuildMemberArchive | common/godot_steps.py:531-592 | the rebuilt file is the local record, the moved directory record and an end record |
| ZipReader.ParsedMembersAreGenuine | common/godot_steps.py:385-460 | on arbitrary bytes, every member returned is what a supported record of that name says |
| ZipReader.OneMemberArchiveReparses | common/godot_steps.py:531-592 | the reader finds in it exactly the member, at offset 0, with the same record and identical bytes, or refuses a local record of the greatest size |
| ZipReader.GreatestRecordIsRefused | common/godot_steps.py:531-592 | a concrete archive whose one member is read, and whose one-member file is refused |
| ZipReader.FetchMember | common/godot_steps.py:626-662 | from the remote directory to one member's archive on arbitrary bytes: succeeds exactly when the local record is there, and the result re-parses to that member |
| Jsonc.StripComments | common/browser_automation_steps.py:128-165 | the comment scanner computes its specification |
| Jsonc.StripTrailingCommas | common/browser_automation_steps.py:168-201 | the comma scanner computes its specification |
| Jsonc.StripIsCommentFree | common/browser_automation_steps.py:128-165 | no comment opens outside a string of the output |
| Jsonc.StripIsIdempotent | common/browser_automation_steps.py:128-165 | stripping comments twice is stripping once, on all inputs |
| Jsonc.TrimIsIdempotentExactlyWhen | common/browser_automation_steps.py:168-201 | removing trailing commas is idempotent exactly on texts without a doubled one |
| Jsonc.TrimIsNotIdempotent | common/browser_automation_steps.py:168-201 | a text on which it is not |
| JsoncMeaning.NormalisePreservesMeaning | common/browser_automation_steps.py:204-212 | however a document is written, the normalised text is comment-free, stable, and parses to the same value with the same string bodies |
| VmStorage.Guest.PartitionForMount | common/storage_steps.py:90-126 | only an untouched disk is partitioned; success means exactly one GPT partition |
| VmStorage.Guest.EnsureFilesystem | common/storage_steps.py:140-178 | only a blank, unmounted device is formatted; a filesystem of the declared kind is adopted, any other refused |
| VmStorage.Guest.VerifyActive | common/storage_steps.py:227-244 | the mount is active with the kind and the UUID |
| VmStorage.Guest.PrepareMount | common/storage_steps.py:247-318 | a symbolic link, a directory in use or a mount without a partitioned disk is refused before anything is done; nothing that existed is lost and nothing beside the mount changes, wherever it stops; on success it is done; on track it stays on track |
| VmStorage.Guest.SetupVmStorage | common/storage_steps.py:321-365 | safety over every run; success from any state completes every mount, and only where nothing about the paths forbade it; from a state on track, whatever crashes came before, a run without failing steps succeeds exactly when every new partition shows nothing or a filesystem of its mount's kind |
| VmStorage.Guest.RerunUntilDone | common/storage_steps.py:321-365 | any number of runs killed anywhere and then one that is not complete every mount, where new partitions show nothing or what is adopted, and lose nothing that existed before the first |
| VmStorage.PreservesBoth | common/storage_steps.py:321-365 | losing nothing composes over runs and reruns |
| VmStorage.DoneStays | common/storage_steps.py:347-358 | a completed mount stays completed while others are prepared |
| VmStorage.BlankIsOnTrack | common/storage_steps.py:100-110 | a blank declared disk and an empty mount path are on track |
| VmStorage.FindDiskExactly | common/storage_steps.py:55-76 | a disk is found exactly when it alone has the serial and is not smaller than declared |
| VmStorage.UnfitIsFinal | common/storage_steps.py:140-170 | a new partition that shows a signature or another kind of filesystem is never formatted, so its mount is never completed |
| AptText.ParseOneLineSource | lib/apt_sources.py:106-129 | the loop over bracketed options finds URI, suite and components |
| AptText.DisabledTextParses | lib/apt_sources.py:416-425 | a one-line file with lines disabled parses to the entries of the kept lines |
| AptPrinted.LineParsesExactlyWhen | lib/apt_sources.py:106-129 | a line gives an entry exactly when its tokens are deb, options, URI, suite and components, and then that entry |
| AptPrinted.PrintedLineParses | lib/apt_sources.py:106-129 | a source written with spaces between its words, with or without a comment, is read |
| AptPrinted.PrintedStanzaParses | lib/apt_sources.py:147-184 | any written stanza, with continuation lines and comments: it gives one entry for each URI and suite when some type is deb and it is not switched off, none otherwise, and cannot be read when its Enabled is empty |
| AptPrinted.PrintedFileParses | lib/apt_sources.py:132-207 | a file's entries are those of its stanzas in their order |
| AptPrinted.LowerSameExactlyWhen | lib/apt_sources.py:168-170 | words are compared up to the case of letters and nothing else |
| AptStanzas.Deb822Stanzas | lib/apt_sources.py:132-144 | the loop computes the runs of nonblank lines |
| AptStanzas.Deb822Fields | lib/apt_sources.py:147-163 | the loop computes the fields with their continuations |
| AptStanzas.CompletedParses | lib/apt_sources.py:147-184 | a line break missing at the end of the file makes no difference |
| AptStanzas.CommentedStanza | lib/apt_sources.py:381-385 | a commented stanza stays one stanza and has no entry |
| AptStanzas.RewrittenTextParses | lib/apt_sources.py:396-415 | a deb822 file with stanzas disabled parses to the entries of the kept stanzas |
| AptSources.DisableParses | lib/apt_sources.py:319-431 | the rewrite commutes with parsing in both formats |
| AptSources.DisabledIsClean | lib/apt_sources.py:319-431 | afterwards nothing of the kind is left, and nothing of another kind comes back |
| AptSources.RepairedEntries | lib/apt_sources.py:279-292 | a repaired file has no CD-ROM and no stale official entry |
| AptSources.RepairedIsRepaired | lib/apt_sources.py:319-431 | both passes repair a file and leave a repaired one alone |
| AptOutcome.RepairLeavesTheRest | lib/apt_sources.py:319-431 | a repair takes away exactly the active stanzas with a CD-ROM or an outdated suite, and the lines with a CD-ROM or an outdated source |
| AptOutcome.RepairFixesExactlyWhen | lib/apt_sources.py:319-431 | a file is left alone exactly when nothing in it is unwanted |
| AptSources.ManagedParses | lib/apt_sources.py:452-472 | the managed file parses to exactly the archives asked for |
| AptRepair.ComponentsForManagedSources | lib/apt_sources.py:295-316 | the loops collect well-formed components once up to case, with main |
| AptOutcome.ComponentsExactly | lib/apt_sources.py:295-316 | main and the well-formed components of official archives and CD-ROMs, all up to case and none twice |
| AptRepair.EnsureSucceedsExactlyWhen | lib/apt_sources.py:526-575 | the final checks pass exactly when both archives are there after the repair, or the managed file is ours or absent and provides nothing alone; no CD-ROM remains |
| AptOutcome.SuccessMeans | lib/apt_sources.py:526-587 | success leaves both archives of the release with main, no CD-ROM and no outdated suite, and beside the managed file only repaired files |
| AptOutcome.HealthyIsKept | lib/apt_sources.py:526-587 | a host whose files provide both archives and nothing unwanted is left as it is |
| AptRepair.FreshStartSucceeds | lib/apt_sources.py:526-575 | without a managed file at the start the final checks pass |
| AptRepair.EnsureIsIdempotent | lib/apt_sources.py:526-575 | a second run changes nothing |
| AptRepair.NotConfiguredExactlyWhen | lib/apt_sources.py:556-575 | a run ends unconfigured exactly when our managed file alone provides one archive and nothing provides the other |
| AptRepair.HalfManagedFails | lib/apt_sources.py:556-575 | a directory with nothing but our file and in it the base archive alone is such a one |
| AptRepair.HalfManagedNeverRecovers | lib/apt_sources.py:556-575 | once it failed on a half-managed file it fails on every run |
| AptRepair.ReadingStopsExactlyWhen | lib/apt_sources.py:166-169 | reading fails exactly when some deb822 file has a stanza with an empty `Enabled` field |
| AptRepair.RunStopsExactlyWhen | lib/apt_sources.py:526-575 | the run then stops without a change, and for no other reason |
| AptRepair.EmptyEnabledStops | lib/apt_sources.py:166-169 | a file of that one line cannot be read |
| AptRerun.KilledRunRecovers | lib/apt_sources.py:545-576 | after a kill at any rewrite a second run succeeds or fails as the undisturbed one does, and ends in the same directory exactly when what is left names the same components or the managed file is not written |
| AptRerun.KilledLaterRecovers | lib/apt_sources.py:547-565 | a kill behind the rewrites leaves a directory of that kind or the final one |
| AptRerun.KilledRunForgets | lib/apt_sources.py:545-570 | with nothing but a CD-ROM, a killed and repeated run asks for main alone, the undisturbed one for the CD-ROM's components |
| AptHost.DisableStanzas | lib/apt_sources.py:396-415 | the loop over stanzas computes the rewritten text and whether it changed |
| AptHost.AptDirectory.RemoveRedundant | lib/apt_sources.py:488-523 | the managed file goes exactly when it is ours and others provide both archives |
| AptHost.AptDirectory.EnsureManaged | lib/apt_sources.py:438-485 | only a file of our own is overwritten |
| AptHost.AptDirectory.EnsureDebianPackageSources | lib/apt_sources.py:526-575 | the run is its specification, with every error |
| ClusterUpdate.CheckTargets | lib/cluster_update.py:142-217 | the preflight reports exactly the targets that are not fit, in order and each for a reason it has, and only looks |
| ClusterUpdate.UpdateNode | lib/cluster_update.py:226-326 | one node's turn: its result, and a disciplined trace |
| ClusterUpdate.TurnMeans | lib/cluster_update.py:226-326 | a target is updated exactly when it goes well, and reported as rebooted exactly when it was and came back |
| ClusterUpdate.UpdateAll | lib/cluster_update.py:226-329 | updated nodes, then at most one failed, then skipped ones, with nothing done behind the failed one |
| ClusterUpdate.RunClusterUpdate | lib/cluster_update.py:130-329 | unless every target is a reachable, healthy and rebootable Proxmox host nothing is touched and exactly the others are reported; otherwise targets are updated up to the first that does not go well; 0 exactly when all are fit and go well; a node is patched only after all earlier ones were patched and last audited healthy with no reboot pending |
| ClusterUpdate.NoRefusals | lib/cluster_update.py:145-222 | the preflight passes exactly when no target is refused |
| Firewall.DeleteNext | common/t3code_steps.py:115-118 | deleting the last stale number leaves the earlier numbers right |
| Firewall.AllDeleted | common/t3code_steps.py:105-118 | all deletions together remove exactly the stale rules and keep the others in order |
| Firewall.CommentsDiffer | common/t3code_steps.py:170-177 | the comment tells source, port and purpose apart |
| Firewall.ConflictsAreUnmanaged | common/t3code_steps.py:145-168 | what is in the way is an allow rule on one of the ports that is not managed |
| Firewall.Ufw.RemoveManagedRules | common/t3code_steps.py:105-118 | the loop by descending number, stopped at any failing deletion |
| Firewall.Ufw.Configure | common/t3code_steps.py:121-198 | on success the managed comments are the desired ones; every state on the way keeps foreign rules and rules wanted before and after; refusals change nothing; it succeeds exactly when nothing is in the way, every missing rule is added and there are deletions enough, and otherwise tells what failed |

## Left out

- Ifupdown.StripIfupdownStanzas: lines end at `\n` only, while `splitlines` also ends them at form feeds, vertical tabs and the Unicode separators; configuration files are taken to hold none.
- AptText.ParseOneLineSource: tokens are words, without the quoting and escaping of `shlex`.
- NetworkTransition.TransitionIsAtomic: asks for the orderly runs above and for a steady base (no carriage return in captured files, an include line that stays, backups that do not dangle, links that lead to what persisting does not change), because runs fail otherwise, as stated above.
* Links are followed one step, and links to directories are not modelled; a link that another program changes between prepare and commit neither.
* Include lines whose two words stand on different lines.
* The sorted order of captured paths is used only in that a path comes before its backup; a file that another program adds to the directory between prepare and commit is not modelled.
* Directories created on the way, file ownership, and writes that fail half way.
* Of how networkd and ifupdown read their files: only lines, keys, stanzas and options, as `systemd.network(5)` and `interfaces(5)` have them.
* Detection of the backend and of bridges; a commit refused because of a bridge is one that completes no step.
* Validation of addresses and gateways when a record is loaded: of it only that a gateway needs an address of its version; the same validation has accepted the same settings at the start.
* Removal of routes by the kernel when their source address goes, and foreign changes to the live state during a transition.
* Timeouts, memory figures, metrics, logging and thread start-up of the operation manager; memory pressure is an arbitrary answer, and loggers do not raise.
* Decoding of ZIP names, CRC and inflation, retries and HTTP headers of a download.
* The full JSON value: literals and string bodies are kept as text, as the normaliser must keep them.
* `shlex` quoting in one-line APT sources, non-ASCII case folding, backups of rewritten sources, and how official URIs are recognised: which URIs are official is a parameter.
* Partition tables and filesystems written half way, loops over device names, and the text of mount units beyond UUID, path and kind.
* Overlapping mount paths and duplicate names, which the settings validation refuses; filesystem UUIDs are assumed to identify a device.
* The text of update summaries, the reboot polling loop, and the choice of the managed port.
* Sources of `ufw` rules: rules are comments and listed lines, and two additions with the same comment are not merged.
* `configure_static_network` without activation, hostname and mDNS setup, package installers, desktop and browser setup, Nginx and certificate handling, credential storage, CLI parsing: plumbing around the cores that would only add easy members.
