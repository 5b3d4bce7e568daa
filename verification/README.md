# Backup mirrors and synchronisation exercises, proved

A Dafny model of the algorithms and protocols in this collection of operating-systems programs.
`dafny verify dfyconfig.toml` checks the whole project.

**The backup engine.** A tree maps paths, as lists of components relative to its root, to directories,
files and links (`Trees`); source and backup are two trees. `Paths` connects the components with the
texts that the C code compares and rebuilds. `FileOps` has the copying, deleting and directory-making
code on a tree changed in place, with short reads and writes. `Mirror` specifies the event-driven mirror
as a state machine: source tree, backup tree, the kernel's watches, the watch table, the table of
unfinished moves. `MirrorSteps`, `MirrorMoves`, `MirrorHalves`, `MirrorEvents` and `MirrorOperations`
are about single events and expiries; `MirrorPhases` follows an operation from event to event and proves
exactly when the agreement of backup and source survives it. `MirrorResults`, `MirrorRenames`,
`MirrorRoutes`, `MirrorConflicts` and `MirrorSchedules` state what follows for whole runs. `Monitor` and
`MonitorLoop` are the monitor process itself, its tables changed in place, proved against the state
machine; `MonitorRuns` puts both together. `Restore` is the two-phase restore and `EndToEnd` the whole
way round. `Registry` is the table of worker processes of the sister program.

**Threads and signals.** `Shop*` and `Shuffle` (pairwise locked sorting with an observer that locks
everything), `Port` and `PortEnd` (two mutexes and a condition variable), `Students` (deferred
cancellation with a cleanup handler), `Balls` (conservation across three kinds of mutex), `Teacher` and
`TeacherEnd` (coalescing signals) are state machines over the steps of any number of threads or
processes; beside each stands the code of its critical sections on the shared record.

**Tokenizers.** `Tokenizers` has the three command-line tokenizers as functions and the lines that each
of them understands, with bare text, both kinds of quotes and escapes; `TokenizerCode` has the pointer
loops that fill the buffers.

Where the code does less than one would hope, the exact condition is proved, and a case in which it
fails: a rename above an unfinished move carries its leftover along in the backup
(`MirrorPhases.ArrivalKeepsInvIff`, `MirrorRenames.RenameCanBreakTheMirror`); a file renamed onto a link
is not mirrored once its first half has expired (`MirrorRoutes.LateReplaceIff`); a new node where an
unfinished move names a path loses its image when that move expires (`MirrorConflicts.StaysTrueIff`); a
restore misses edits that are not newer than the backup and links that do not survive two rewritings
(`Restore.RestoreIsIdentityIff`), and brings back what was moved out last
(`EndToEnd.RestoreAfterMirroring`); the shop's cleanup handler locks the mutex it should unlock
(`ShopProgress.WaitingEndsIff`); a request to the teacher that finds another pending is lost, and the
teacher ends exactly if that never happens (`TeacherEnd.EndsDoneIff`), which only a class of one is safe
from (`TeacherEnd.CanMergeIff`); an empty directory whose place a file takes is left out of a copy that
reports success (`FileOps.WholeCopyIff`); quoted empty arguments vanish in one tokenizer
(`Tokenizers.ParseArgsReadsBackIff`), and another writes its null behind a full table
(`TokenizerCode.ParseCommand`).

## Model

| member | source | states |
|---|---|---|
| Paths.PrefixTestIsComponentwise | moroz/p1/mykhailo_moroz/src/main.c:1182-1190 | on canonical paths the textual prefix test holds exactly when the component list is a prefix |
| Paths.TextIsInjective | moroz/p1/mykhailo_moroz/src/main.c:1182-1190 | different canonical paths have different spellings, so comparing texts compares paths |
| Paths.MapSwapsTheRoot | moroz/p1/mykhailo_moroz/src/main.c:324-359 | the map to the backup succeeds exactly below the source root and within the length limit, and then swaps the root and keeps the rest |
| Paths.MapIsOrderIsomorphism | moroz/p1/mykhailo_moroz/src/main.c:324-359 | the map keeps and reflects the prefix order and is undone by the map with the roots swapped |
| Paths.ReplacePrefixIsRebase | moroz/p1/mykhailo_moroz/src/main.c:548-577 | the new text of a watched path is the spelling of the rebased path; a path outside keeps its text |
| Paths.RewrittenIsRetargeted | moroz/p1/mykhailo_moroz/src/main.c:1290-1299 | a target that leads from the source root, whole names compared, leads from the backup root by the same way; every other target keeps its text |
| Paths.RetargetedPath | moroz/p1/mykhailo_moroz/src/main.c:1290-1299 | so, on canonical paths, a target below the source root becomes the path with the root exchanged, and any other path stays |
| Paths.RelativeStays | moroz/p1/mykhailo_moroz/src/main.c:1290-1299 | a relative target keeps its text |
| Paths.LinkRoundTrip | moroz/p1/mykhailo_moroz/src/main.c:1276-1308 | a link target survives being rewritten for the backup and back if and only if it points into the source or not into the backup |
| FileOps.BulkRead | moroz/p1/mykhailo_moroz/src/main.c:115-131 | whatever short reads occur, exactly the next bytes up to the count or the end are returned |
| FileOps.Disk.BulkWrite | moroz/p1/mykhailo_moroz/src/main.c:133-147 | whatever short writes occur, the buffer is appended to the file and nothing else changes |
| FileOps.Disk.CopyFile | moroz/p1/mykhailo_moroz/src/main.c:1192-1274 | copies the whole content under any pattern of short reads and writes; succeeds exactly when source and destination allow it, else changes nothing |
| FileOps.Disk.CopyLink | moroz/p1/mykhailo_moroz/src/main.c:1276-1308 | replaces what unlink can remove by a link that leads the same way from the backup root if it led from the source root, and to where it led otherwise; else changes nothing |
| FileOps.Disk.RmTree | moroz/p1/mykhailo_moroz/src/main.c:1428-1487 | removes exactly the node and everything below it |
| FileOps.Disk.CopyTree | moroz/p1/mykhailo_moroz/src/main.c:1310-1426 | reports success if and only if every entry can be written when its turn comes, and has then copied all that is not an empty directory with something else in its place; wherever it stops nothing is lost, and what is new or changed is a copy |
| FileOps.WholeCopyIff | moroz/p1/mykhailo_moroz/src/main.c:1310-1426 | a copy that reports success is the whole copy if and only if no directory finds something else in its place |
| FileOps.EmptyDirectoryMissed | moroz/p1/mykhailo_moroz/src/main.c:1369-1389 | an empty directory does not appear where a file is, and the copy reports success |
| FileOps.Disk.MkdirP | moroz/p1/mykhailo_moroz/src/main.c:1091-1131 | the outcome and the tree are those of making the missing prefixes of the path with its links followed, or a failure that changes nothing |
| FileOps.Disk.EnsureDir | orlov/project_1/main.c:95-133 | the recursive variant, links followed too: same tree where every existing prefix is a directory, else a failure that changes nothing |
| FileOps.SameUnlessPathIsNoDirectory | orlov/project_1/main.c:95-133 | the iterative and the recursive directory maker agree if and only if the path does not exist as something that neither is a directory nor a link that leads to one |
| FileOps.NothingToFollow | moroz/p1/mykhailo_moroz/src/main.c:1091-1131 | a path with no link to a directory on its way is found where it says |
| FileOps.WithDirsAddsAncestors | moroz/p1/mykhailo_moroz/src/main.c:1091-1131 | exactly the path and its missing ancestors are added, as directories, and nothing else changes |
| Mirror.Find | moroz/p1/mykhailo_moroz/src/main.c:620-634 | the first pending move with the cookie, or none with it |
| MirrorPhases.OperationKeepsInv | moroz/p1/mykhailo_moroz/src/main.c:660-812 | after any operation on the source, its events handled with expiries anywhere between, backup and watch table agree with the source again, provided the arrival among the events finds what it must |
| MirrorPhases.ArrivalKeepsInvIff | moroz/p1/mykhailo_moroz/src/main.c:742-773 | for every operation and every schedule: after the arrival, backup and records agree with the source if and only if a matched arrival carries along only leftovers that pending moves name, and an unmatched one finds nothing it cannot replace |
| MirrorPhases.CleanOperationFits | moroz/p1/mykhailo_moroz/src/main.c:660-812 | in every schedule that holds if no pending move left anything below a renamed directory and no file overwrites a link |
| MirrorPhases.RunUnderway | moroz/p1/mykhailo_moroz/src/main.c:660-812 | any part of an operation's events, with any expiries between, leads from a phase of the operation to a phase with the rest still to come |
| MirrorPhases.AfterEvent | moroz/p1/mykhailo_moroz/src/main.c:690-806 | handling the next event leads to the next phase, unless it is an arrival that does not find what it must |
| MirrorPhases.AfterExpiry | moroz/p1/mykhailo_moroz/src/main.c:636-657 | an expiry in any phase leaves the operation in a phase with the same events to come; the half-known move whose entry expires becomes an arrival |
| MirrorOperations.ExpiryBeforeEvents | moroz/p1/mykhailo_moroz/src/main.c:636-657 | an expiry commutes with an operation whose events have not been handled |
| MirrorOperations.ExpiryKeepsOperation | moroz/p1/mykhailo_moroz/src/main.c:636-657 | an expiry neither forbids an operation nor changes its events |
| MirrorOperations.RmdirReported | moroz/p1/mykhailo_moroz/src/main.c:729-734 | either of the two deletion events of a directory removes its image and its records |
| MirrorOperations.MoveOutReported | moroz/p1/mykhailo_moroz/src/main.c:736-740 | a departure leaves the image as a stale subtree named by a pending move |
| MirrorOperations.RenameReported | moroz/p1/mykhailo_moroz/src/main.c:736-740 | the first half of a rename, to a free place or onto a file or link, leads to the half-known state |
| MirrorHalves.ExpireOther | moroz/p1/mykhailo_moroz/src/main.c:636-657 | a half-known move stays half known when another pending move expires, wherever that puts it in the table |
| MirrorEvents.SecondHalf | moroz/p1/mykhailo_moroz/src/main.c:742-757 | the matched arrival, also onto a file or link, makes the same rename in backup and records as in the source, and restores the agreement if and only if it carries along only named leftovers |
| MirrorMoves.MirroredIff | moroz/p1/mykhailo_moroz/src/main.c:383-409 | mirroring one node loses no other and adds none but missing directories above it; it makes the image if and only if no other node is in the way |
| MirrorMoves.RenameLosesNothing | moroz/p1/mykhailo_moroz/src/main.c:742-757 | a rename in the backup carries the whole subtree along, and costs at most one node in its place, an empty directory for a directory, a file or link for another |
| MirrorMoves.ReplacedAgrees | moroz/p1/mykhailo_moroz/src/main.c:742-757 | onto a file or link it always restores the agreement |
| MirrorEvents.FirstHalfExpires | moroz/p1/mykhailo_moroz/src/main.c:636-657 | the expiry of a half-known move leaves its arrival an ordinary one, which can be mirrored if and only if it does not put a file over a link |
| MirrorSteps.ExpireKeepsInv | moroz/p1/mykhailo_moroz/src/main.c:636-657 | removing the stale subtree and records of an expired move keeps the agreement |
| MirrorSteps.ArrivalOfTree | moroz/p1/mykhailo_moroz/src/main.c:761-766 | making the directory, watching its tree and copying its tree brings a new directory into agreement |
| MirrorSteps.DeletionReported | moroz/p1/mykhailo_moroz/src/main.c:800-805 | deleting the image and forgetting the records keeps the agreement after a deletion |
| MirrorResults.StartAgrees | moroz/p1/mykhailo_moroz/src/main.c:1489-1516 | the first copy and the first watches establish the agreement |
| MirrorResults.RunKeepsInv | moroz/p1/mykhailo_moroz/src/main.c:660-812 | every legal run of operations and expiries keeps the agreement |
| MirrorResults.MirrorNeverDrifts | moroz/p1/mykhailo_moroz/src/main.c:660-812 | in every reachable state the backup has the image of every source node, links leading the same way from the other root, plus stale subtrees of pending moves, and every source directory has exactly one record, at its present path, other records being below pending directory moves |
| MirrorResults.MirroredLinks | moroz/p1/mykhailo_moroz/src/main.c:1290-1299 | a source link to a path below the source root is in the backup a link to the same path below the backup root |
| MirrorResults.QuietMirrorIsExact | moroz/p1/mykhailo_moroz/src/main.c:660-812 | with no move pending, backup and source have the same paths and the records are exactly the source directories |
| MirrorResults.PromptMove | moroz/p1/mykhailo_moroz/src/main.c:742-757 | the two events of a rename together move the image and rebase the records |
| MirrorSchedules.OperationsAreScheduled | moroz/p1/mykhailo_moroz/src/main.c:660-812 | every allowed operation has events, descriptors and a schedule, so the claims about runs exclude none |
| MirrorSchedules.MovesCanBeLate | moroz/p1/mykhailo_moroz/src/main.c:636-657 | every rename has a schedule in which its first half expires before its second is handled |
| MirrorRenames.RenameKeepsMirrorIff | moroz/p1/mykhailo_moroz/src/main.c:742-757 | a promptly reported rename keeps the mirror true if and only if every leftover of a pending move that it carries along is named by a pending move again |
| MirrorMoves.NothingStrandedIsNamed | moroz/p1/mykhailo_moroz/src/main.c:742-757 | that holds if there is no leftover, and with no pending move below the new path only then |
| MirrorRenames.ReplaceKeepsMirror | moroz/p1/mykhailo_moroz/src/main.c:742-757 | a promptly reported rename onto a file or link keeps the mirror true |
| MirrorRenames.ExampleIsReached | moroz/p1/mykhailo_moroz/src/main.c:736-740 | a legal run from the first copy on that leads to a leftover |
| MirrorRenames.RenameCanBreakTheMirror | moroz/p1/mykhailo_moroz/src/main.c:742-757 | continuing that run by a rename breaks the mirror |
| MirrorRoutes.BothRoutesAgree | moroz/p1/mykhailo_moroz/src/main.c:636-657 | a rename handled as a matched pair and the same rename handled by expiry and unmatched arrival end with the same backup and the same recorded paths if and only if no pending move left anything below the renamed path |
| MirrorRoutes.LateRenameKeepsInv | moroz/p1/mykhailo_moroz/src/main.c:756-773 | handled by expiry and unmatched arrival, a rename to a free place keeps the mirror true whatever pending moves have left |
| MirrorRoutes.LateReplaceIff | moroz/p1/mykhailo_moroz/src/main.c:756-773 | so handled, a rename onto a file or link keeps it true if and only if it does not put a file over a link |
| MirrorConflicts.StaysTrueIff | moroz/p1/mykhailo_moroz/src/main.c:636-657 | an operation handled at once keeps the mirror true through all expiries to come if and only if no node comes to lie at or below a path that a pending move names |
| MirrorConflicts.ForgettingMoveIff | moroz/p1/mykhailo_moroz/src/main.c:595-608 | a full table that drops an entry keeps the mirror true if and only if nothing is left at the path of that entry or another pending move names it |
| Monitor.WatchMap.Find | moroz/p1/mykhailo_moroz/src/main.c:449-459 | the first record with the descriptor; on distinct descriptors, the lookup in the table |
| Monitor.WatchMap.Remove | moroz/p1/mykhailo_moroz/src/main.c:461-473 | swap-with-last drops the first record of the descriptor and keeps every other |
| Monitor.WatchMap.UpdatePrefix | moroz/p1/mykhailo_moroz/src/main.c:548-577 | every record at or below the old path is rebased, every other one unchanged |
| Monitor.WatchMap.RemoveSubtree | moroz/p1/mykhailo_moroz/src/main.c:579-592 | exactly the records in the subtree go, from the table and from the kernel |
| Monitor.SwapRemoveDrops | moroz/p1/mykhailo_moroz/src/main.c:461-473 | as a map, swap-with-last removal removes one descriptor and nothing else |
| MonitorLoop.PendingMoves.Add | moroz/p1/mykhailo_moroz/src/main.c:595-618 | appends the move; a full table first loses an entry no other is older than |
| MonitorLoop.PendingMoves.Take | moroz/p1/mykhailo_moroz/src/main.c:620-634 | takes out the first entry with the cookie, or changes nothing |
| MonitorLoop.Process.MirrorCreateOrUpdate | moroz/p1/mykhailo_moroz/src/main.c:383-409 | the backup becomes what the specification of mirroring one node says |
| MonitorLoop.Process.AddWatchTree | moroz/p1/mykhailo_moroz/src/main.c:487-546 | each directory of the tree gets one new descriptor and record, nothing else does |
| MonitorLoop.Process.AdoptDirectory | moroz/p1/mykhailo_moroz/src/main.c:761-766 | the three calls for a new directory are the adoption step of the state machine, with fresh descriptors |
| MonitorLoop.Process.CompleteMove | moroz/p1/mykhailo_moroz/src/main.c:745-757 | the matched arrival is the rename step of the state machine |
| MonitorLoop.Process.ExpireOld | moroz/p1/mykhailo_moroz/src/main.c:636-657 | is a run of expiries of the state machine; exactly the entries a second old go, the others staying in their order |
| MonitorLoop.Process.HandleEvent | moroz/p1/mykhailo_moroz/src/main.c:696-806 | one turn of the event loop is the event step of the state machine; the process ends if and only if the source root itself is deleted or moved, which like an unknown descriptor changes nothing |
| MonitorLoop.Process.HandleEvents | moroz/p1/mykhailo_moroz/src/main.c:691-807 | the events of one read are a run of the state machine: all of them, or those up to the first that ends the process |
| MonitorRuns.ReadIsSmooth | moroz/p1/mykhailo_moroz/src/main.c:691-807 | whatever part of an operation's events a read delivers, each finds what the code needs at its turn and none ends the process |
| MonitorRuns.Begin | moroz/p1/mykhailo_moroz/src/main.c:1489-1516 | copying and watching establish the agreement of the running process |
| MonitorRuns.TurnOfLoop | moroz/p1/mykhailo_moroz/src/main.c:679-807 | one turn of the outer loop, expiry and then the events of one read, leads from phase to phase of the operation |
| MonitorRuns.Follow | moroz/p1/mykhailo_moroz/src/main.c:679-807 | the loop restores the agreement after an operation however its events are spread over reads |
| MonitorRuns.Idle | moroz/p1/mykhailo_moroz/src/main.c:636-657 | expiring old moves keeps the agreement and leaves exactly the recent moves pending |
| MonitorRuns.Session | moroz/p1/mykhailo_moroz/src/main.c:660-812 | from the first copy on, through any sequence of clean operations, reads and waits, the process keeps backup and records in agreement with the source |
| Restore.CheckSrcAgainstBackup | moroz/p1/mykhailo_moroz/src/main.c:815-897 | keeps exactly the source nodes whose whole way from the start has nodes of the same kinds in the backup |
| Restore.ApplyBackup | moroz/p1/mykhailo_moroz/src/main.c:899-990 | every backup node is in the source afterwards, copied back unless it is there and not modified since the backup |
| Restore.RestoreSource | moroz/p1/mykhailo_moroz/src/main.c:1735-1743 | restoring is pruning followed by applying, and succeeds |
| Restore.RestoreIsIdentityIff | moroz/p1/mykhailo_moroz/src/main.c:815-990 | after arbitrary edits restoring gives back the original if and only if no edit passes for untouched and every link to be brought back survives its rewritings |
| Restore.RestoreUndoesEdits | moroz/p1/mykhailo_moroz/src/main.c:815-990 | in particular if edited nodes are newer than the backup and no original link points into the backup |
| Restore.EditInTheSameSecondIsMissed | moroz/p1/mykhailo_moroz/src/main.c:952-967 | an edit in the second in which the backup was created is not undone |
| Restore.LinkIntoBackupIsTurned | moroz/p1/mykhailo_moroz/src/main.c:1276-1308 | a link into the backup comes back pointing into the source |
| EndToEnd.MirrorIsBackupIff | moroz/p1/mykhailo_moroz/src/main.c:660-812 | the mirrored backup is the exact image of the source if and only if no pending move has left anything in it |
| EndToEnd.RestoreAfterMirroring | moroz/p1/mykhailo_moroz/src/main.c:660-990 | backup, any mirrored run, arbitrary damage, restore: the identity if and only if no pending move has left anything, no edit passes for untouched and every link to be brought back survives its rewritings |
| EndToEnd.MovedOutComesBack | moroz/p1/mykhailo_moroz/src/main.c:679-683 | a run after which a restore without any edit brings back the file that was moved out last |
| Registry.Registry.FindBackup | orlov/project_1/main.c:764-774 | the index of the pair, or -1 exactly if it is not registered |
| Registry.Registry.AddBackup | orlov/project_1/main.c:928-953 | registers a new child for the pair unless the table is full or fork fails; every child stays registered exactly once |
| Registry.Registry.StopBackup | orlov/project_1/main.c:794-805 | exactly the entry of the pair goes, and its child with it |
| Registry.Registry.ReapChildren | orlov/project_1/main.c:776-792 | exactly the entries of exited children go, and no exited child is left |
| Registry.Registry.Add | orlov/project_1/main.c:1044-1089 | all targets are checked before any is added: either nothing changes or all are added in order as far as there is room, but for those whose fork fails |
| Registry.RemovalKeepsRest | orlov/project_1/main.c:783-786 | filling the gap with the last entry keeps every other entry and their uniqueness |
| Shuffle.ShuffleInPlace | moroz/ConsultationL3/sop-shop.c:27-34 | the loop on the array gives the outcome of its sequence of choices |
| Shuffle.ShufflePermutes | moroz/ConsultationL3/sop-shop.c:27-34 | every outcome is a permutation |
| Shuffle.EachPermutationOnce | moroz/ConsultationL3/sop-shop.c:27-34 | for distinct products the outcomes are exactly the permutations, each from exactly one sequence of choices |
| Shop.InitInv | moroz/ConsultationL3/sop-shop.c:211-262 | the state after start-up satisfies the invariant |
| Shop.WorkerKeepsOwners | moroz/ConsultationL3/sop-shop.c:97-134 | each mutex is owned by the thread whose place in the code says so, kept by every worker step |
| Shop.SignalKeepsOwners | moroz/ConsultationL3/sop-shop.c:158-176 | the same for the signal thread |
| Shop.Exclusion | moroz/ConsultationL3/sop-shop.c:118-128 | no two workers, nor a worker and the signal thread, hold one shelf |
| Shop.WorkerStock | moroz/ConsultationL3/sop-shop.c:122-125 | the products on the shelves, a torn swap completed, change exactly by one swap of an inverted pair, at the first of its two stores |
| Shop.NobodySwaps | moroz/ConsultationL3/sop-shop.c:158-175 | while the signal thread holds every mutex no worker is inside a swap |
| ShopResults.StepKeepsInv | moroz/ConsultationL3/sop-shop.c:97-199 | every step of any thread, cancellations included, keeps the invariant |
| ShopResults.HoldingSeesAllProducts | moroz/ConsultationL3/sop-shop.c:158-175 | in every run, wherever cancellations strike, once the signal thread holds all mutexes the shelves are a permutation of 1..N |
| ShopResults.LastTakesSlot | moroz/ConsultationL3/sop-shop.c:177-187 | the table of active workers keeps listing every worker not yet cancelled exactly once |
| ShopSorting.SwapReduces | moroz/ConsultationL3/sop-shop.c:122-125 | a swap of an inverted pair leaves fewer inversions |
| ShopSorting.BothDecides | moroz/ConsultationL3/sop-shop.c:122-125 | a worker holding two shelves swaps exactly if their products are out of order, so never once the stock is sorted |
| ShopSorting.NoSwapIffSorted | moroz/ConsultationL3/sop-shop.c:122-125 | no pair is out of order if and only if the shelves read 1..N |
| ShopSorting.SwapsAreBounded | moroz/ConsultationL3/sop-shop.c:97-134 | between two shuffles at most N(N-1)/2 swaps happen in any interleaving |
| ShopProgress.WaitingClimbs | moroz/ConsultationL3/sop-shop.c:110-120 | who holds a mutex and waits, waits for a later one |
| ShopProgress.ChainsAreAcyclic | moroz/ConsultationL3/sop-shop.c:110-171 | no chain of waiting threads repeats a thread, none is longer than the mutexes allow |
| ShopProgress.WaitingEndsIff | moroz/ConsultationL3/sop-shop.c:92-129 | a waiting thread waits in the end for one that can step if and only if not for a worker cancelled inside its critical section |
| ShopProgress.NoDeadlock | moroz/ConsultationL3/sop-shop.c:97-199 | while no worker has been cancelled there, some thread can step as long as any waits |
| ShopProgress.StuckForever | moroz/ConsultationL3/sop-shop.c:92-129 | a worker cancelled there keeps both mutexes for good, and the shelves are never shown or shuffled again |
| ShopProgress.CancellationCanStick | moroz/ConsultationL3/sop-shop.c:92-129 | a concrete run in which it happens |
| ShopCode.SortPair | moroz/ConsultationL3/sop-shop.c:122-125 | the critical section on the array: ordered afterwards, swapped exactly if inverted, fewer inversions if swapped |
| ShopCode.SectionIsThreeSteps | moroz/ConsultationL3/sop-shop.c:122-125 | the machine's three steps of a swap have the effect of the section |
| ShopCode.ActiveWorkers.CancelOne | moroz/ConsultationL3/sop-shop.c:177-187 | gives a worker never cancelled before and keeps the table exact |
| ShopEnd.AnyOrderCanFollow | moroz/ConsultationL3/sop-shop.c:168-173 | a shuffle can leave the shelves in every order of the products, and in nothing else |
| ShopEnd.AnyPairCanBePicked | moroz/ConsultationL3/sop-shop.c:101-116 | a worker that finds the flag not set can go for any two shelves, lower one first; one that finds it set goes for none |
| ShopEnd.StepsBringNearer | moroz/ConsultationL3/sop-shop.c:97-134 | once the flag is set every step of a worker, and every cancellation that takes effect, lowers a rank |
| ShopEnd.ClosingIsBounded | moroz/ConsultationL3/sop-shop.c:97-134 | so after the flag no run has more steps than the rank |
| ShopEnd.AllJoinedIff | moroz/ConsultationL3/sop-shop.c:261-265 | when nobody can step any more, every worker has ended if and only if none was cancelled inside its critical section |
| ShopEnd.LastCancellationCloses | moroz/ConsultationL3/sop-shop.c:177-193 | once all workers have been cancelled the flag is set or about to be |
| Port.StepKeepsInv | moroz/w3/mykhailo_moroz/ops-port.c:42-140 | every step of any thread keeps ownership, conservation of packages and numbers, phases and the wakeup condition |
| Port.PackagesConserved | moroz/w3/mykhailo_moroz/ops-port.c:42-135 | packages left is never negative, the numbers handed out are exactly 1, 2, 3, ... in order, and with the state mutex free docked is left plus handed out |
| Port.EachIsCarriedOnce | moroz/w3/mykhailo_moroz/ops-port.c:131-137 | workers announce only numbers handed out, none twice, and all of them once all workers are done |
| Port.NothingAfterTerminate | moroz/w3/mykhailo_moroz/ops-port.c:62-135 | nothing is handed out once terminate is set |
| Port.NoLostWakeup | moroz/w3/mykhailo_moroz/ops-port.c:98-102 | with the state mutex free, a worker asleep implies that the port is open and empty |
| Port.AbleIff | moroz/w3/mykhailo_moroz/ops-port.c:91-140 | some thread can step by itself if and only if not all workers are asleep or done with the signal thread waiting or gone |
| Port.StepsBringNearer | moroz/w3/mykhailo_moroz/ops-port.c:91-140 | once terminate is set every step of any thread lowers a rank |
| Port.ClosingEnds | moroz/w3/mykhailo_moroz/ops-port.c:91-140 | while the rank is not zero some thread can step, and at zero all threads are done |
| Port.ClosingIsBounded | moroz/w3/mykhailo_moroz/ops-port.c:62-140 | after terminate no run has more steps than the rank |
| PortEnd.PortCanAlwaysClose | moroz/w3/mykhailo_moroz/ops-port.c:62-140 | from every state a run reaches there is a run to the end of all threads |
| PortEnd.DocksIff | moroz/w3/mykhailo_moroz/ops-port.c:42-60 | the signal thread docks exactly at an empty port, and any number of packages from 30 to 60 |
| Port.Shared.DockShip | moroz/w3/mykhailo_moroz/ops-port.c:42-60 | only an open and empty port takes a ship, of 30 to 60 packages |
| Port.Shared.TryTerminate | moroz/w3/mykhailo_moroz/ops-port.c:62-69 | closing the port changes nothing but the flag |
| Port.Shared.Unload | moroz/w3/mykhailo_moroz/ops-port.c:116-135 | gives the next number, never given before, exactly if the port is open and a package is left |
| Students.StepKeepsInv | moroz/PracticeTasks_Lab03/prog20.c:54-154 | every step of any thread keeps the accounting |
| Students.OneStudentMoves | moroz/PracticeTasks_Lab03/prog20.c:54-109 | what a student's step may change, and that a finished student takes none |
| Students.YearsFollow | moroz/PracticeTasks_Lab03/prog20.c:54-109 | the years change exactly as the place where the student is counted |
| Students.YearsAreRight | moroz/PracticeTasks_Lab03/prog20.c:54-109 | whenever the mutex is free year k is the number of registered, not cleaned-up students whose current is k, in every interleaving of cancellations |
| Students.FinalCount | moroz/PracticeTasks_Lab03/prog20.c:150-155 | after all joins years 0 to 2 are zero, year 3 plus the dropped students is everyone, and a student is dropped if and only if a cancellation requested by main reached it before its last move |
| Students.CountedOut | moroz/PracticeTasks_Lab03/prog20.c:67-76 | a cancellation acts in a sleep or at a test and sends the student to the cleanup, which takes it out of the year it is in |
| Students.RequestIff | moroz/PracticeTasks_Lab03/prog20.c:139-147 | main cancels exactly the student whose state it has read as 0 |
| Students.AnyoneCanBePicked | moroz/PracticeTasks_Lab03/prog20.c:139 | main can pick any student for its next look |
| Students.NeverStuck | moroz/PracticeTasks_Lab03/prog20.c:54-155 | until main has printed some thread can step |
| Students.NobodyGraduates | moroz/PracticeTasks_Lab03/prog20.c:67-155 | a run in which the only student is cancelled in time and every year is printed as zero |
| Students.Course.Register | moroz/PracticeTasks_Lab03/prog20.c:84-88 | registration counts the student in the first year and keeps the accounting |
| Students.Course.MoveYear | moroz/PracticeTasks_Lab03/prog20.c:54-65 | a move changes two years by one and keeps the accounting |
| Students.Course.Cleanup | moroz/PracticeTasks_Lab03/prog20.c:67-76 | the cleanup takes the student out of its year, marks it and keeps the accounting |
| Teacher.StepKeepsInv | orlov/lab2_prep/task2_alternative.c:51-291 | every step of teacher, handlers and students keeps the invariant |
| Teacher.NoExitLost | orlov/lab2_prep/task2_alternative.c:51-75 | an exit not yet reaped has its SIGCHLD pending or the handler still looping; outside the handler the count left is the number of students not reaped |
| Teacher.StatusIsCount | orlov/lab2_prep/task2_alternative.c:189 | a reaped student's count is at most 100 and survives the exit status |
| Teacher.FinalTable | orlov/lab2_prep/task2_alternative.c:273-291 | when the teacher's loop ends every student has exited, was acknowledged for every part, has drawn once for every step of every part, and its row is the number of its draws below its probability |
| Teacher.RunKeepsDrawn | orlov/lab2_prep/task2_alternative.c:139-165 | in every run a student's count is the number of its draws below its probability, one draw for each step it has done |
| Teacher.SureIssues | orlov/lab2_prep/task2_alternative.c:153-156 | a student that always has issues counts every step, one that never has none |
| Teacher.AnyDraw | orlov/lab2_prep/task2_alternative.c:153-156 | every draw below 100 is possible at every step |
| Teacher.Handshake | orlov/lab2_prep/task2_alternative.c:128-183 | at most one request or answer is on its way, none while working; part k is reached only after k - 1 acknowledgements and none is stale |
| Teacher.AcceptanceFindsStudent | orlov/lab2_prep/task2_alternative.c:78-88 | an acknowledgement only goes to a live student waiting for it |
| Teacher.MergedIff | orlov/lab2_prep/task2_alternative.c:171-174 | a request is merged into another exactly if one is pending when it is sent |
| Teacher.MergedRequestHangs | orlov/lab2_prep/task2_alternative.c:171-181 | a student whose request was merged waits for good and the teacher never ends |
| TeacherEnd.NeverStuckUnmerged | orlov/lab2_prep/task2_alternative.c:273-277 | as long as no request has been merged and the teacher is not done, a student or the teacher can step |
| TeacherEnd.StepsBringNearer | orlov/lab2_prep/task2_alternative.c:51-291 | every step of students, handlers and teacher lowers a rank |
| TeacherEnd.RunsAreBounded | orlov/lab2_prep/task2_alternative.c:51-291 | no run has more steps than the rank of its first state |
| TeacherEnd.EndsDoneIff | orlov/lab2_prep/task2_alternative.c:273-277 | a run that can go no further has the teacher done if and only if no request was merged on the way |
| TeacherEnd.CanMergeIff | orlov/lab2_prep/task2_alternative.c:171-174 | some run of a class merges a request if and only if it has two students or more |
| TeacherEnd.LoneStudentEnds | orlov/lab2_prep/task2_alternative.c:273-277 | a class of at most one student ends with the teacher done |
| Teacher.Class.SigchldHandler | orlov/lab2_prep/task2_alternative.c:51-75 | one run of the handler reaps and counts every student that is gone and stores each exit status in its own row |
| Teacher.StoreStatus | orlov/lab2_prep/task2_alternative.c:65-72 | the search sets the row of that process and no other |
| Balls.StepKeepsInv | moroz/PracticeTasks_Lab03/prog18.c:57-140 | every step, loads and stores being separate, keeps ownership, loaded values, conservation and the histogram |
| Balls.BallsConserved | moroz/PracticeTasks_Lab03/prog18.c:57-81 | waiting, flying and binned balls are all the balls; tallied ones are the binned ones less those between the two increments; the throwers' own counts are the tally less those to be added |
| Balls.UnlockedReadIsExact | moroz/PracticeTasks_Lab03/prog18.c:124-140 | the bins read without a lock are the final ones and hold every ball; bin b holds as many as threw exactly b heads |
| Balls.FullTallySettles | moroz/PracticeTasks_Lab03/prog18.c:124-129 | a full tally means that every ball lies in a bin |
| Balls.SettledStays | moroz/PracticeTasks_Lab03/prog18.c:57-81 | once all balls lie in bins no step of any thrower changes a bin |
| Balls.Stall.Work | moroz/PracticeTasks_Lab03/prog18.c:57-81 | a thread alone with the waiting balls throws each of them once; every bin b grows by the number of throws with exactly b heads, tally and own count by the number of balls |
| Basics.Total | moroz/PracticeTasks_Lab03/prog18.c:131-138 | the summing loop gives the sum of the table |
| Basics.SwapRemoveElements | moroz/p1/mykhailo_moroz/src/main.c:461-473 | swap-with-last removal keeps every other entry, the last one in the gap |
| Balls.ThrowBall | moroz/PracticeTasks_Lab03/prog18.c:47-55 | the bin is the number of heads in ten throws, so always a bin there is |
| Balls.AnyThrow | moroz/PracticeTasks_Lab03/prog18.c:47-55 | every sequence of ten coins can be thrown |
| Balls.StepsBringNearer | moroz/PracticeTasks_Lab03/prog18.c:57-81 | every step of a thrower lowers a rank, so their runs are bounded |
| Balls.SomeoneThrows | moroz/PracticeTasks_Lab03/prog18.c:57-129 | until all throwers have stopped some thrower can step while main waits |
| Balls.StoppedMeansFull | moroz/PracticeTasks_Lab03/prog18.c:124-129 | when they have stopped no ball waits, bins, tally and own counts hold all, and main's loop ends at its next look |
| Balls.MeanIsAverage | moroz/PracticeTasks_Lab03/prog18.c:134-139 | the sum from which the mean is taken is the number of heads thrown with all balls |
| Balls.Report | moroz/PracticeTasks_Lab03/prog18.c:131-140 | the loop gives the number of balls and the mean bin |
| TokenizerCode.ParseLine | moroz/p1/mykhailo_moroz/src/main.c:150-244 | the pointer loop returns what the function says, within its buffers for lines as fgets gives them |
| TokenizerCode.ReadArgument | moroz/p1/mykhailo_moroz/src/main.c:171-240 | one argument, its text and where it ends, or the rejection; the row never overflows |
| TokenizerCode.ParseArgs | orlov/project_1/main.c:807-872 | the scanning loop returns what the function says, for lines of any length |
| TokenizerCode.ArgLength | lesha/p1/aliaksei_kudzelka/src/main.c:1025-1052 | the first pass counts the characters of the argument |
| TokenizerCode.CopyArgument | lesha/p1/aliaksei_kudzelka/src/main.c:1066-1095 | the second pass writes exactly as many characters, then the terminator into the last cell, whatever is left open |
| TokenizerCode.ParseCommand | lesha/p1/aliaksei_kudzelka/src/main.c:1054-1104 | fills the table with the arguments and a null, which lies behind the table exactly if the arguments fill it; nothing else behind the table changes |
| Tokenizers.ParseLineIff | moroz/p1/mykhailo_moroz/src/main.c:150-244 | a line is accepted with certain arguments if and only if it is made of them, at most 32, each bare or in quotes of either kind and short enough, bare ones followed by space |
| Tokenizers.ParseArgsReads | orlov/project_1/main.c:807-872 | bare and quoted stretches are read as they come and joined; what comes back are the arguments that are not empty, the first 64 |
| Tokenizers.ParseArgsReadsBackIff | orlov/project_1/main.c:807-872 | so up to 64 arguments are all read back if and only if none is empty |
| Tokenizers.ParseArgsRejects | orlov/project_1/main.c:807-872 | a quote that is not closed is an error if fewer than 64 arguments come before it |
| Tokenizers.ParseArgsStops | orlov/project_1/main.c:807-872 | whatever comes after the 64th argument is not looked at |
| Tokenizers.ParseCommandReads | lesha/p1/aliaksei_kudzelka/src/main.c:1054-1104 | bare and quoted stretches are read as they come and joined, empty arguments included, as many as the table has room for |
| Tokenizers.WordUnclosed | lesha/p1/aliaksei_kudzelka/src/main.c:1025-1104 | an argument with a quote that is not closed, or a last backslash, goes on to the end of the line |
| Tokenizers.FullLine | lesha/p1/aliaksei_kudzelka/src/main.c:1107-1111 | there are lines whose arguments fill a table of any size |
| Tokenizers.OneLine | moroz/p1/mykhailo_moroz/src/main.c:150-244 | a line that all three tokenizers understand says the same to all three |
| Tokenizers.AnyArgument | moroz/p1/mykhailo_moroz/src/main.c:150-244 | every text short enough can be written so that all three read it |

## Left out

- File modes, ownership, special files, hard links and file-descriptor errors.
- FileOps.Disk.CopyFile: a copy onto an existing link, which an open for writing would follow, counts as impossible.
- The length limit of paths inside the tree operations: names are components there; only the map between the roots and the tokenizers have it.
- The clock: one value stands for the time during one batch of events, and copies carry it as their modification time.
- Cancellation of a worker in the middle of a copy or of an event batch.
- Events that are handled after the source has changed again: the model follows each operation by its events, with expiries of unfinished moves anywhere between.
- MonitorLoop.Process.HandleEvent: needs the directory it adopts to have no image and no watched part yet, and room in the table of unfinished moves; every read of an allowed operation's events meets that (`MonitorRuns.ReadIsSmooth`). With a part watched already the code records that part twice.
- MonitorLoop.Process.HandleEvents: asks the same of each event in turn.
- MonitorLoop.Process.AdoptDirectory: asks the same of its directory.
- MonitorLoop.Process.AddWatchTree: is stated for a tree of which nothing is watched yet.
- MirrorPhases.OperationKeepsInv: does not cover a full table of unfinished moves and a node that comes to lie at or below a path that an unfinished move names (exact conditions in `MirrorConflicts`), nor a directory renamed onto an empty one, after which the kernel also reports the end of the old directory.
- MirrorResults.RunKeepsInv: leaves out the same.
- MirrorResults.MirrorNeverDrifts: leaves out the same.
- MonitorRuns.Follow: is stated for operations that are clean (`MirrorPhases.CleanOperationFits`), which can be told beforehand.
- MonitorRuns.Session: asks the same of every operation.
- Links are followed by `FileOps.Disk.MkdirP` and `FileOps.Disk.EnsureDir` only. Elsewhere a link on the way of a path counts as being in the way, which it is not for the system.
- A directory that was moved out and comes back, or changes while it is away and its record is still there.
- Restore.ApplyBackup: is stated for what the pruning leaves, so its branch for nodes of different kinds cannot be reached; a missing backup directory is left out.
- Restore in the two sister programs, which use size, time and hash shortcuts.
- The removal of watches below a path in the sister program (orlov/project_1/main.c:601-614), the same loop as the one proved here.
- Process identifiers reused by the system while still in a table; counters that wrap around after two thousand million steps.
- Random number generators and sleeps: every random choice is arbitrary, and its outcomes are all possible.
- ShopCode.SortPair: shows the section run alone; the interleaved section is the state machine's.
- Balls.Stall.Work: shows a thread alone with the waiting balls; the interleaved threads are the state machine's.
- Spurious wakeups are in `Port`; timing and fairness are not, so every progress claim says that some thread can step.
- The teacher's handlers may interrupt each other at any step, which allows more than one process can do. Students killed by a signal are only in the handler's code, not in the state machine.
- Argument validation, loggers, listings, and the remaining exercises of the collection.
